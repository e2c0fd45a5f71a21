/**
 Content digests of SQLite tables
 (scripts/maintenance/collect_global_storage_inventory.py).
 */
module RowDigest {
  import opened Bytes

  /** Text is held as its UTF-8 bytes, a float as Python's `repr` of it. */
  datatype Value = Null | Blob(bytes: seq<byte>) | Text(utf8: seq<byte>) | Integer(value: int) | Float(repr: seq<byte>)

  type Row = seq<Value>

  // ---- Decimal text ----

  function Digits(n: nat): (s: seq<byte>)
    ensures s != [] && forall i :: 0 <= i < |s| ==> 48 <= s[i] < 58
  {
    if n < 10 then [(48 + n) as byte] else Digits(n / 10) + [(48 + n % 10) as byte]
  }

  function Decimal(n: int): seq<byte> {
    if n < 0 then [45] + Digits(-n) else Digits(n)
  }

  function ReadDigits(s: seq<byte>): int {
    if s == [] then 0 else ReadDigits(s[..|s|-1]) * 10 + (s[|s|-1] as int - 48)
  }

  function ReadDecimal(s: seq<byte>): int {
    if s != [] && s[0] == 45 then -ReadDigits(s[1..]) else ReadDigits(s)
  }

  lemma {:induction false} DigitsRoundTrip(n: nat)
    ensures ReadDigits(Digits(n)) == n
  {
    if n < 10 {
      assert [(48 + n) as byte][..0] == [];
    } else {
      DigitsRoundTrip(n / 10);
      assert Digits(n)[..|Digits(n)|-1] == Digits(n / 10);
    }
  }

  lemma DecimalRoundTrip(n: int)
    ensures ReadDecimal(Decimal(n)) == n
  {
    if n < 0 {
      DigitsRoundTrip(-n);
      assert Decimal(n)[1..] == Digits(-n);
    } else {
      DigitsRoundTrip(n);
    }
  }

  // ---- One value ----

  function Marker(v: Value): byte {
    match v
    case Null => 110
    case Blob(_) => 98
    case Text(_) => 115
    case Integer(_) => 105
    case Float(_) => 102
  }

  function Payload(v: Value): seq<byte> {
    match v
    case Null => []
    case Blob(bytes) => bytes
    case Text(utf8) => utf8
    case Integer(value) => Decimal(value)
    case Float(repr) => repr
  }

  function ValueOf(marker: byte, payload: seq<byte>): Value {
    if marker == 110 then Null
    else if marker == 98 then Blob(payload)
    else if marker == 115 then Text(payload)
    else if marker == 105 then Integer(ReadDecimal(payload))
    else Float(payload)
  }

  lemma ValueRoundTrip(v: Value)
    ensures ValueOf(Marker(v), Payload(v)) == v
  {
    if v.Integer? {
      DecimalRoundTrip(v.value);
    }
  }

  // ---- One row ----

  predicate Encodable(row: Row) {
    forall i :: 0 <= i < |row| ==> Fits(|Payload(row[i])|, 8)
  }

  /** What is hashed for one value: marker, eight-byte length, payload. */
  function EncodeValue(v: Value): (s: seq<byte>)
    ensures |s| == 9 + |Payload(v)|
  {
    [Marker(v)] + BigEndian(|Payload(v)|, 8) + Payload(v)
  }

  function EncodeRow(row: Row): seq<byte> {
    if row == [] then []
    else EncodeRow(row[..|row|-1]) + EncodeValue(row[|row|-1])
  }

  function DecodeRow(s: seq<byte>): Option<Row>
    decreases |s|
  {
    if s == [] then Some([])
    else if |s| < 9 then None
    else
      var n := FromBigEndian(s[1..9]);
      if |s| - 9 < n then None
      else match DecodeRow(s[9 + n..])
        case None => None
        case Some(rest) => Some([ValueOf(s[0], s[9..9 + n])] + rest)
  }

  lemma {:induction false} EncodeFront(row: Row)
    requires row != []
    ensures EncodeRow(row) == EncodeValue(row[0]) + EncodeRow(row[1..])
  {
    hide EncodeValue, EncodeRow;
    if |row| == 1 {
      assert row[..0] == [] && row[1..] == [];
      EncodeBack(row);
      EmptyRow();
    } else {
      var init, last, tail := row[..|row|-1], row[|row|-1], row[1..];
      var middle := init[1..];
      EncodeFront(init);
      assert tail[..|tail|-1] == middle;
      EncodeBack(tail);
      EncodeBack(row);
      Regroup(EncodeValue(row[0]), EncodeRow(middle), EncodeValue(last));
    }
  }

  lemma EncodeBack(row: Row)
    requires row != []
    ensures EncodeRow(row) == EncodeRow(row[..|row|-1]) + EncodeValue(row[|row|-1])
  {
  }

  lemma Regroup(a: seq<byte>, b: seq<byte>, c: seq<byte>)
    ensures (a + b) + c == a + (b + c)
  {
  }

  /** The encoding of a row can be read back. */
  lemma {:induction false} RowRoundTrip(row: Row)
    requires Encodable(row)
    ensures DecodeRow(EncodeRow(row)) == Some(row)
  {
    hide Marker, Payload, ValueOf, BigEndian, FromBigEndian, EncodeRow, Fits;
    if row == [] {
      EmptyRow();
    } else {
      var v, rest := row[0], EncodeRow(row[1..]);
      var s := EncodeRow(row);
      EncodeFront(row);
      RowRoundTrip(row[1..]);
      BigEndianRoundTrip(|Payload(v)|, 8);
      ValueRoundTrip(v);
      var n := |Payload(v)|;
      assert s[0] == Marker(v) && s[1..9] == BigEndian(n, 8) && s[9..9 + n] == Payload(v) && s[9 + n..] == rest;
      assert [v] + row[1..] == row;
    }
  }

  lemma EmptyRow()
    ensures EncodeRow([]) == []
  {
  }

  /** Equal hashed bytes mean equal typed rows. */
  lemma EncodingIsInjective(a: Row, b: Row)
    requires Encodable(a) && Encodable(b)
    ensures EncodeRow(a) == EncodeRow(b) <==> a == b
  {
    hide EncodeRow, DecodeRow, Encodable;
    RowRoundTrip(a);
    RowRoundTrip(b);
  }

  // ---- A whole table ----

  type Digest = seq<byte>

  datatype Tally = Tally(digest: Digest, count: nat)

  /** SHA-256 as a function: 32 bytes, distinct on the rows that occur. */
  ghost predicate Separates(sha: seq<byte> -> Digest, rows: set<Row>) {
    && (forall r :: r in rows ==> Encodable(r) && |sha(EncodeRow(r))| == 32)
    && (forall a, b :: a in rows && b in rows && sha(EncodeRow(a)) == sha(EncodeRow(b)) ==> EncodeRow(a) == EncodeRow(b))
  }

  lemma DigestsIdentifyRows(sha: seq<byte> -> Digest, rows: set<Row>, a: Row, b: Row)
    requires Separates(sha, rows) && a in rows && b in rows
    ensures sha(EncodeRow(a)) == sha(EncodeRow(b)) <==> a == b
  {
    hide EncodeRow, Encodable;
    if sha(EncodeRow(a)) == sha(EncodeRow(b)) {
      EncodingIsInjective(a, b);
    }
  }

  function DigestsOf(sha: seq<byte> -> Digest, rows: seq<Row>): seq<Digest> {
    seq(|rows|, i requires 0 <= i < |rows| => sha(EncodeRow(rows[i])))
  }

  /** Byte-wise lexicographic order. */
  predicate Less(a: Digest, b: Digest) {
    b != [] && (a == [] || a[0] < b[0] || (a[0] == b[0] && Less(a[1..], b[1..])))
  }

  lemma {:induction false} LessTransitive(a: Digest, b: Digest, c: Digest)
    requires Less(a, b) && Less(b, c)
    ensures Less(a, c)
  {
    if a != [] && a[0] == b[0] == c[0] {
      LessTransitive(a[1..], b[1..], c[1..]);
    }
  }

  lemma {:induction false} LessTotal(a: Digest, b: Digest)
    ensures (if a == b then 1 else 0) + (if Less(a, b) then 1 else 0) + (if Less(b, a) then 1 else 0) == 1
  {
    if a != [] && b != [] && a[0] == b[0] {
      LessTotal(a[1..], b[1..]);
      assert a == [a[0]] + a[1..] && b == [b[0]] + b[1..];
    }
  }

  ghost predicate Ascending(l: seq<Tally>) {
    forall i, j :: 0 <= i < j < |l| ==> Less(l[i].digest, l[j].digest)
  }

  /** The sorted items of a counter over `m`. */
  ghost predicate IsListing(l: seq<Tally>, m: multiset<Digest>) {
    Ascending(l) && forall t :: t in l <==> t.count > 0 && m[t.digest] == t.count
  }

  /** What is hashed for a table: each row digest and how often it occurs. */
  function Aggregate(l: seq<Tally>): seq<byte> {
    if l == [] then [] else Aggregate(l[..|l|-1]) + (l[|l|-1].digest + BigEndian(l[|l|-1].count, 8))
  }

  ghost predicate Wide(l: seq<Tally>) {
    forall i :: 0 <= i < |l| ==> |l[i].digest| == 32 && Fits(l[i].count, 8)
  }

  lemma {:induction false} AggregateLength(l: seq<Tally>)
    requires Wide(l)
    ensures |Aggregate(l)| == 40 * |l|
  {
    hide Fits;
    if l != [] {
      AggregateLength(l[..|l|-1]);
    }
  }

  lemma {:induction false} AggregateIsInjective(a: seq<Tally>, b: seq<Tally>)
    requires Wide(a) && Wide(b) && Aggregate(a) == Aggregate(b)
    ensures a == b
  {
    hide Fits, BigEndian;
    AggregateLength(a);
    AggregateLength(b);
    if a != [] {
      var n := |a| - 1;
      var x, y := a[n], b[n];
      AggregateLength(a[..n]);
      AggregateLength(b[..n]);
      var s := Aggregate(a);
      assert s[..40 * n] == Aggregate(a[..n]) == Aggregate(b[..n]);
      assert s[40 * n..40 * n + 32] == x.digest == y.digest;
      assert s[40 * n + 32..] == BigEndian(x.count, 8) == BigEndian(y.count, 8);
      BigEndianRoundTrip(x.count, 8);
      BigEndianRoundTrip(y.count, 8);
      AggregateIsInjective(a[..n], b[..n]);
      assert a == a[..n] + [x] && b == b[..n] + [y];
    }
  }

  /** The first item of a listing has the least digest. */
  lemma FirstIsLeast(l: seq<Tally>, m: multiset<Digest>, t: Tally)
    requires IsListing(l, m) && t in l
    ensures t == l[0] || Less(l[0].digest, t.digest)
  {
    hide Less;
    var i :| 0 <= i < |l| && l[i] == t;
  }

  lemma TailIsListing(l: seq<Tally>, m: multiset<Digest>)
    requires IsListing(l, m) && l != []
    ensures IsListing(l[1..], m[l[0].digest := 0])
  {
    hide Less;
    var rest, first := m[l[0].digest := 0], l[0];
    assert l == [first] + l[1..];
    forall t | t in l[1..] ensures t.digest != first.digest {
      var i :| 0 <= i < |l[1..]| && l[1..][i] == t;
      LessTotal(first.digest, l[i+1].digest);
    }
  }

  lemma {:induction false} ListingIsUnique(a: seq<Tally>, b: seq<Tally>, m: multiset<Digest>)
    requires IsListing(a, m) && IsListing(b, m)
    ensures a == b
  {
    hide Less, IsListing;
    SameItems(a, b, m);
    if a != [] {
      assert a[0] in b && b[0] in a;
      FirstIsLeast(a, m, b[0]);
      FirstIsLeast(b, m, a[0]);
      LessTotal(a[0].digest, b[0].digest);
      TailIsListing(a, m);
      TailIsListing(b, m);
      ListingIsUnique(a[1..], b[1..], m[a[0].digest := 0]);
      assert a == [a[0]] + a[1..] && b == [b[0]] + b[1..];
    }
  }

  lemma SameItems(a: seq<Tally>, b: seq<Tally>, m: multiset<Digest>)
    requires IsListing(a, m) && IsListing(b, m)
    ensures forall t :: t in a <==> t in b
    ensures a == [] <==> b == []
  {
    if a != [] {
      assert a[0] in a;
    }
    if b != [] {
      assert b[0] in b;
    }
  }

  lemma ListingFixesCounts(l: seq<Tally>, m: multiset<Digest>, n: multiset<Digest>)
    requires IsListing(l, m) && IsListing(l, n)
    ensures m == n
  {
    hide Ascending;
    forall d ensures m[d] == n[d] {
      assert m[d] > 0 ==> Tally(d, m[d]) in l;
      assert n[d] > 0 ==> Tally(d, n[d]) in l;
    }
  }

  /** The table digest depends only on how often each row digest occurs, and determines it. */
  lemma AggregateIsOrderIndependent(a: seq<Tally>, b: seq<Tally>, m: multiset<Digest>, n: multiset<Digest>)
    requires IsListing(a, m) && IsListing(b, n) && Wide(a) && Wide(b)
    ensures Aggregate(a) == Aggregate(b) <==> m == n
  {
    hide IsListing, Wide, Aggregate;
    if Aggregate(a) == Aggregate(b) {
      AggregateIsInjective(a, b);
      ListingFixesCounts(a, m, n);
    }
    if m == n {
      ListingIsUnique(a, b, m);
    }
  }

  lemma {:induction false} DigestCounts(sha: seq<byte> -> Digest, rows: seq<Row>, all: set<Row>, r: Row)
    requires Separates(sha, all) && r in all && forall x :: x in rows ==> x in all
    ensures multiset(DigestsOf(sha, rows))[sha(EncodeRow(r))] == multiset(rows)[r]
  {
    hide Separates, EncodeRow;
    if rows != [] {
      var init, last := rows[..|rows|-1], rows[|rows|-1];
      assert forall x :: x in init ==> x in rows;
      DigestCounts(sha, init, all, r);
      DigestsIdentifyRows(sha, all, last, r);
      assert rows == init + [last];
      assert DigestsOf(sha, rows) == DigestsOf(sha, init) + [sha(EncodeRow(last))];
    }
  }

  /** Tables have the same digest exactly when they hold the same rows equally often, in whatever order. */
  lemma TableDigestIsRowMultiset(sha: seq<byte> -> Digest, a: seq<Row>, b: seq<Row>, la: seq<Tally>, lb: seq<Tally>)
    requires Separates(sha, DistinctRows(a + b))
    requires IsListing(la, multiset(DigestsOf(sha, a))) && IsListing(lb, multiset(DigestsOf(sha, b)))
    requires Wide(la) && Wide(lb)
    ensures Aggregate(la) == Aggregate(lb) <==> multiset(a) == multiset(b)
  {
    hide Separates, IsListing, Aggregate, Wide, EncodeRow, DigestsOf;
    var all := DistinctRows(a + b);
    AggregateIsOrderIndependent(la, lb, multiset(DigestsOf(sha, a)), multiset(DigestsOf(sha, b)));
    if Aggregate(la) == Aggregate(lb) {
      forall r ensures multiset(a)[r] == multiset(b)[r] {
        if r in all {
          DigestCounts(sha, a, all, r);
          DigestCounts(sha, b, all, r);
        }
      }
    }
    if multiset(a) == multiset(b) {
      SameRowsSameDigests(sha, a, b, all);
    }
  }

  lemma SameRowsSameDigests(sha: seq<byte> -> Digest, a: seq<Row>, b: seq<Row>, all: set<Row>)
    requires Separates(sha, all) && (forall r :: r in a || r in b ==> r in all) && multiset(a) == multiset(b)
    ensures multiset(DigestsOf(sha, a)) == multiset(DigestsOf(sha, b))
  {
    hide Separates, EncodeRow, DigestsOf;
    forall d ensures multiset(DigestsOf(sha, a))[d] == multiset(DigestsOf(sha, b))[d] {
      if d in DigestsOf(sha, a) {
        var r := RowOfDigest(sha, a, d);
        DigestCounts(sha, a, all, r);
        DigestCounts(sha, b, all, r);
      } else if d in DigestsOf(sha, b) {
        var r := RowOfDigest(sha, b, d);
        DigestCounts(sha, a, all, r);
        DigestCounts(sha, b, all, r);
      }
    }
  }

  lemma RowOfDigest(sha: seq<byte> -> Digest, rows: seq<Row>, d: Digest) returns (r: Row)
    requires d in DigestsOf(sha, rows)
    ensures r in rows && sha(EncodeRow(r)) == d
  {
    hide EncodeRow;
    var i :| 0 <= i < |rows| && DigestsOf(sha, rows)[i] == d;
    r := rows[i];
  }

  // ---- Profiling a table ----

  function Insert(l: seq<Tally>, t: Tally): seq<Tally> {
    if l == [] || Less(t.digest, l[0].digest) then [t] + l else [l[0]] + Insert(l[1..], t)
  }

  lemma {:induction false} InsertKeepsOrder(l: seq<Tally>, t: Tally)
    requires Ascending(l) && forall u :: u in l ==> u.digest != t.digest
    ensures Ascending(Insert(l, t)) && forall u :: u in Insert(l, t) <==> u in l || u == t
  {
    hide Less;
    if l == [] {
    } else if Less(t.digest, l[0].digest) {
      forall j | 0 <= j < |l| ensures Less(t.digest, l[j].digest) {
        if j > 0 {
          LessTransitive(t.digest, l[0].digest, l[j].digest);
        }
      }
    } else {
      var rest := l[1..];
      assert l == [l[0]] + rest;
      InsertKeepsOrder(rest, t);
      assert l[0] in l;
      LessTotal(t.digest, l[0].digest);
      var inserted := Insert(rest, t);
      forall j | 0 <= j < |inserted| ensures Less(l[0].digest, inserted[j].digest) {
        assert inserted[j] in inserted;
        if inserted[j] in rest {
          var k :| 0 <= k < |rest| && rest[k] == inserted[j];
          assert l[k+1] == rest[k];
        }
      }
    }
  }

  /** `sorted(counter.items())`. */
  method SortedItems(counter: map<Digest, nat>) returns (l: seq<Tally>)
    ensures Ascending(l)
    ensures forall t :: t in l <==> t.digest in counter && counter[t.digest] == t.count
  {
    hide Less, Ascending;
    l := [];
    assert Ascending([]) by { NothingIsAscending(); }
    var keys := counter.Keys;
    while keys != {}
      invariant keys <= counter.Keys && Ascending(l)
      invariant forall t :: t in l <==> t.digest in counter && t.digest !in keys && counter[t.digest] == t.count
      decreases |keys|
    {
      var d :| d in keys;
      InsertKeepsOrder(l, Tally(d, counter[d]));
      l := Insert(l, Tally(d, counter[d]));
      keys := keys - {d};
    }
  }

  lemma NothingIsAscending()
    ensures Ascending([])
  {
  }

  function Extra(l: seq<Tally>): int {
    if l == [] then 0 else l[0].count - 1 + Extra(l[1..])
  }

  lemma {:induction false} ExtraIsDuplicates(l: seq<Tally>, m: multiset<Digest>)
    requires IsListing(l, m)
    ensures Extra(l) == |m| - |l|
  {
    hide IsListing;
    if l == [] {
      EmptyListing(l, m);
    } else {
      TailIsListing(l, m);
      ExtraIsDuplicates(l[1..], m[l[0].digest := 0]);
      ListedCount(l, m);
    }
  }

  lemma EmptyListing(l: seq<Tally>, m: multiset<Digest>)
    requires IsListing(l, m) && l == []
    ensures m == multiset{}
  {
    forall d ensures m[d] == 0 {
      assert Tally(d, m[d]) !in l;
    }
  }

  lemma ListedCount(l: seq<Tally>, m: multiset<Digest>)
    requires IsListing(l, m) && l != []
    ensures m[l[0].digest] == l[0].count
  {
    assert l[0] in l;
  }

  function Support(m: multiset<Digest>): (s: set<Digest>)
    ensures forall d :: d in s <==> d in m
  {
    set d | d in m
  }

  lemma {:induction false} ListingCountsDistinct(l: seq<Tally>, m: multiset<Digest>)
    requires IsListing(l, m)
    ensures |l| == |Support(m)|
  {
    hide IsListing;
    if l == [] {
      EmptyListing(l, m);
    } else {
      var d := l[0].digest;
      TailIsListing(l, m);
      ListingCountsDistinct(l[1..], m[d := 0]);
      ListedCount(l, m);
      assert l[0].count > 0 by { FirstIsCounted(l, m); }
      assert Support(m) == Support(m[d := 0]) + {d};
    }
  }

  lemma FirstIsCounted(l: seq<Tally>, m: multiset<Digest>)
    requires IsListing(l, m) && l != []
    ensures l[0].count > 0
  {
    assert l[0] in l;
  }

  function DistinctRows(rows: seq<Row>): (s: set<Row>)
    ensures forall r :: r in s <==> r in rows
  {
    set r | r in rows
  }

  lemma SizeWith<T>(before: set<T>, x: T)
    ensures |before + {x}| == |before| + if x in before then 0 else 1
  {
    if x in before {
      assert before + {x} == before;
    }
  }

  lemma OneMore(init: seq<Row>, last: Row, digests: seq<Digest>, d: Digest)
    ensures DistinctRows(init + [last]) == DistinctRows(init) + {last}
    ensures Support(multiset(digests + [d])) == Support(multiset(digests)) + {d}
  {
  }

  lemma {:induction false} DistinctDigests(sha: seq<byte> -> Digest, rows: seq<Row>, all: set<Row>)
    requires Separates(sha, all) && forall r :: r in rows ==> r in all
    ensures |Support(multiset(DigestsOf(sha, rows)))| == |DistinctRows(rows)|
  {
    hide Separates, EncodeRow, DigestsOf, Support, DistinctRows;
    if rows == [] {
      NoDigests(sha);
      assert Support(multiset{}) == {} && DistinctRows([]) == {};
    } else {
      var init, last := rows[..|rows|-1], rows[|rows|-1];
      assert rows == init + [last];
      DistinctDigests(sha, init, all);
      DigestsGrow(sha, rows);
      DigestCounts(sha, init, all, last);
      var digests, d := DigestsOf(sha, init), sha(EncodeRow(last));
      assert d in multiset(digests) <==> last in multiset(init);
      OneMore(init, last, digests, d);
      SizeWith(DistinctRows(init), last);
      SizeWith(Support(multiset(digests)), d);
    }
  }

  lemma NoDigests(sha: seq<byte> -> Digest)
    ensures DigestsOf(sha, []) == []
  {
  }

  lemma DigestsGrow(sha: seq<byte> -> Digest, rows: seq<Row>)
    requires rows != []
    ensures DigestsOf(sha, rows) == DigestsOf(sha, rows[..|rows|-1]) + [sha(EncodeRow(rows[|rows|-1]))]
  {
    hide EncodeRow;
  }

  method CountRows(sha: seq<byte> -> Digest, rows: seq<Row>) returns (counter: map<Digest, nat>)
    ensures forall d :: d in counter <==> multiset(DigestsOf(sha, rows))[d] > 0
    ensures forall d :: d in counter ==> counter[d] == multiset(DigestsOf(sha, rows))[d]
  {
    hide EncodeRow, DigestsOf;
    counter := map[];
    NoDigests(sha);
    for i := 0 to |rows|
      invariant forall d :: d in counter <==> multiset(DigestsOf(sha, rows[..i]))[d] > 0
      invariant forall d :: d in counter ==> counter[d] == multiset(DigestsOf(sha, rows[..i]))[d]
    {
      assert rows[..i+1][..i] == rows[..i];
      DigestsGrow(sha, rows[..i+1]);
      var d := sha(EncodeRow(rows[i]));
      counter := counter[d := (if d in counter then counter[d] else 0) + 1];
    }
    assert rows[..|rows|] == rows;
  }

  method SumUp(items: seq<Tally>) returns (aggregate: seq<byte>, extra: int)
    ensures aggregate == Aggregate(items) && extra == Extra(items)
  {
    hide BigEndian;
    aggregate, extra := [], 0;
    for i := 0 to |items|
      invariant aggregate == Aggregate(items[..i])
      invariant extra + Extra(items[i..]) == Extra(items)
    {
      assert items[..i+1][..i] == items[..i] && items[i..][1..] == items[i+1..];
      aggregate := aggregate + (items[i].digest + BigEndian(items[i].count, 8));
      extra := extra + items[i].count - 1;
    }
    assert items[..|items|] == items;
  }

  /** Counts row digests, sorts the counts, and sums the surplus over one per distinct row. */
  method ProfileRows(sha: seq<byte> -> Digest, rows: seq<Row>)
    returns (ghost listing: seq<Tally>, aggregate: seq<byte>, duplicateRows: int)
    requires Separates(sha, DistinctRows(rows))
    ensures IsListing(listing, multiset(DigestsOf(sha, rows))) && aggregate == Aggregate(listing)
    ensures duplicateRows == |rows| - |DistinctRows(rows)|
  {
    hide Separates, EncodeRow, Ascending, Aggregate, Extra;
    var counter := CountRows(sha, rows);
    var items := SortedItems(counter);
    listing := items;
    aggregate, duplicateRows := SumUp(items);
    var m := multiset(DigestsOf(sha, rows));
    ExtraIsDuplicates(items, m);
    ListingCountsDistinct(items, m);
    DistinctDigests(sha, rows, DistinctRows(rows));
  }
}
