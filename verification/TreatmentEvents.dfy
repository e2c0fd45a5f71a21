/**
 Merging optical treatment events (scripts/backfill_ap_optical_treatment_events.py).

 Event fields hold what the tool's own readers return for them: trimmed text, one
 of four sides, and the trimmed `backfill_keys` and `audits` of the evidence JSON.
 */
module TreatmentEvents {
  import opened Bytes
  import opened Text
  import opened Tokens

  datatype Side = Unknown | Ap | Switch | Both

  datatype Status = Open | Resolved

  /** What Python's `float` yields, rounding aside. */
  datatype Number = Nan | MinusInfinity | Finite(x: real) | PlusInfinity

  /** Python's `float` on trimmed text, ISO timestamps, and string order: not interpreted here. */
  datatype Readers = Readers(
    number: string -> Option<Number>,
    isTimestamp: string -> bool,
    notAfter: (string, string) -> bool)

  datatype Event = Event(
    identity: string,
    firstDetectedAt: string,
    lastAbnormalAt: string,
    resolvedAt: string,
    status: Status,
    worstSide: Side,
    worstAp: string,
    worstSwitch: string,
    worstRx: string,
    details: seq<string>,        // the thirteen descriptive columns, in a fixed order
    backfillKey: string,
    source: string,
    quality: string,
    revisionFirst: string,
    revisionLast: string,
    evidenceKeys: seq<string>,
    audits: seq<string>)

  // ---- Sides ----

  function MergeSide(previous: Side, current: Side): Side {
    if previous == Both || current == Both then Both
    else if previous == Unknown then current
    else if current == Unknown || current == previous then previous
    else Both
  }

  /** What a side says: which ends were seen abnormal. */
  function EndsOf(side: Side): set<Side> {
    match side
    case Unknown => {}
    case Ap => {Ap}
    case Switch => {Switch}
    case Both => {Ap, Switch}
  }

  function SideOf(ends: set<Side>): Side {
    if Ap in ends && Switch in ends then Both else if Ap in ends then Ap else if Switch in ends then Switch else Unknown
  }

  function FoldSides(base: Side, sides: seq<Side>): Side {
    if sides == [] then base else MergeSide(FoldSides(base, sides[..|sides|-1]), sides[|sides|-1])
  }

  function EndsSeen(base: Side, sides: seq<Side>): set<Side> {
    EndsOf(base) + set i, end | 0 <= i < |sides| && end in EndsOf(sides[i]) :: end
  }

  /** Merging any number of sides in any order gives exactly the ends any of them saw. */
  lemma {:induction false} FoldSidesIsUnion(base: Side, sides: seq<Side>)
    ensures FoldSides(base, sides) == SideOf(EndsSeen(base, sides))
    ensures EndsOf(FoldSides(base, sides)) == EndsSeen(base, sides)
  {
    if sides != [] {
      var init, last := sides[..|sides|-1], sides[|sides|-1];
      FoldSidesIsUnion(base, init);
      assert EndsSeen(base, sides) == EndsSeen(base, init) + EndsOf(last) by {
        forall end | end in EndsSeen(base, sides) ensures end in EndsSeen(base, init) + EndsOf(last) {
          if end !in EndsOf(base) {
            var i :| 0 <= i < |sides| && end in EndsOf(sides[i]);
            if i < |init| {
              assert init[i] == sides[i];
            }
          }
        }
        forall end | end in EndsSeen(base, init) ensures end in EndsSeen(base, sides) {
          if end !in EndsOf(base) {
            var i :| 0 <= i < |init| && end in EndsOf(init[i]);
            assert sides[i] == init[i];
          }
        }
      }
    } else {
      assert EndsSeen(base, sides) == EndsOf(base);
    }
  }

  // ---- Readings ----

  /** `a <= b`; a NaN compares with nothing. */
  predicate AtMost(a: Number, b: Number) {
    if a.Nan? || b.Nan? then false
    else if a.MinusInfinity? || b.PlusInfinity? then true
    else (a.Finite? && b.Finite? && a.x <= b.x) || a == b
  }

  /** The smaller reading; a text that is not a number never replaces what is there. */
  function Worse(r: Readers, previous: string, current: string): string {
    var p, c := Strip(previous), Strip(current);
    if p == "" then c
    else if c == "" then p
    else if r.number(p).None? || r.number(c).None? then p
    else if AtMost(r.number(p).value, r.number(c).value) then p else c
  }

  function FoldWorse(r: Readers, readings: seq<string>): string {
    if readings == [] then "" else Worse(r, FoldWorse(r, readings[..|readings|-1]), readings[|readings|-1])
  }

  predicate Numeric(r: Readers, reading: string) {
    Strip(reading) != "" && r.number(Strip(reading)).Some?
  }

  function NumberOf(r: Readers, reading: string): Number
    requires Numeric(r, reading)
  {
    r.number(Strip(reading)).value
  }

  predicate IsNan(r: Readers, reading: string) {
    Numeric(r, reading) && NumberOf(r, reading).Nan?
  }

  /** The first reading that is there at all. */
  function FirstReading(readings: seq<string>): string {
    if readings == [] then ""
    else
      var before := FirstReading(readings[..|readings|-1]);
      if before != "" then before else Strip(readings[|readings|-1])
  }

  /** Where the readings after the last NaN start. */
  function AfterNan(r: Readers, readings: seq<string>): (k: nat)
    ensures k <= |readings|
  {
    if readings == [] then 0
    else if IsNan(r, readings[|readings|-1]) then |readings| else AfterNan(r, readings[..|readings|-1])
  }

  /** Reading `i` is a smallest of the numeric ones from `k` on, or the NaN just before with no number since. */
  ghost predicate SmallestAt(r: Readers, readings: seq<string>, k: nat, i: nat) {
    && i < |readings| && Numeric(r, readings[i])
    && if i + 1 == k then forall j :: k <= j < |readings| ==> !Numeric(r, readings[j])
       else k <= i && forall j :: k <= j < |readings| && Numeric(r, readings[j]) ==>
                        AtMost(NumberOf(r, readings[i]), NumberOf(r, readings[j]))
  }

  /** `worst` is a smallest of the numeric readings since the last NaN, or that NaN if there is none since. */
  ghost predicate SmallestSinceNan(r: Readers, readings: seq<string>, worst: string) {
    exists i :: 0 <= i < |readings| && SmallestAt(r, readings, AfterNan(r, readings), i) && Strip(readings[i]) == worst
  }

  lemma {:induction false} FoldWorseIsStripped(r: Readers, readings: seq<string>)
    ensures Strip(FoldWorse(r, readings)) == FoldWorse(r, readings)
  {
    if readings != [] {
      FoldWorseIsStripped(r, readings[..|readings|-1]);
    }
  }

  lemma FoldStep(r: Readers, init: seq<string>, last: string)
    ensures var all := init + [last];
            && FoldWorse(r, all) == Worse(r, FoldWorse(r, init), last)
            && FirstReading(all) == (if FirstReading(init) != "" then FirstReading(init) else Strip(last))
            && AfterNan(r, all) == if IsNan(r, last) then |all| else AfterNan(r, init)
  {
    hide Strip, Worse, IsNan;
    assert (init + [last])[..|init|] == init;
  }

  /** The reading just before `AfterNan` is a NaN. */
  lemma {:induction false} NanAt(r: Readers, readings: seq<string>)
    ensures var k := AfterNan(r, readings); k > 0 ==> IsNan(r, readings[k-1])
  {
    hide IsNan;
    if readings != [] {
      NanAt(r, readings[..|readings|-1]);
    }
  }

  lemma AtMostIsTotal(a: Number, b: Number)
    ensures AtMost(a, a) <==> !a.Nan?
    ensures !a.Nan? && !b.Nan? ==> AtMost(a, b) || AtMost(b, a)
    ensures a.Nan? || b.Nan? ==> !AtMost(a, b)
  {
  }

  /** Of two finite readings the smaller one is kept, whatever surrounds the texts; a text that is no number loses to what is there. */
  lemma WorseOfTwo(r: Readers, previous: string, current: string)
    requires Strip(previous) != "" && Strip(current) != ""
    ensures var p, c, worse := r.number(Strip(previous)), r.number(Strip(current)), Worse(r, previous, current);
            && (p.None? || c.None? ==> worse == Strip(previous))
            && (p.Some? && c.Some? && p.value.Finite? && c.value.Finite? ==>
                  worse == if p.value.x <= c.value.x then Strip(previous) else Strip(current))
            && (p.Some? && c.Some? && p.value.Finite? && c.value.MinusInfinity? ==> worse == Strip(current))
            && (p.Some? && c.Some? && p.value.Finite? && c.value.PlusInfinity? ==> worse == Strip(previous))
            && (p.Some? && c.Some? && p.value.PlusInfinity? && c.value.Finite? ==> worse == Strip(current))
            && (p.Some? && c.Some? && p.value.MinusInfinity? && !c.value.Nan? ==> worse == Strip(previous))
  {
    hide Strip;
  }

  lemma AtMostIsTransitive(a: Number, b: Number, c: Number)
    ensures AtMost(a, b) && AtMost(b, c) ==> AtMost(a, c)
  {
  }

  lemma NanStarts(r: Readers, init: seq<string>, last: string)
    requires Numeric(r, last)
    ensures SmallestAt(r, init + [last], |init| + 1, |init|)
  {
    hide Strip;
    assert (init + [last])[|init|] == last;
  }

  lemma KeptStands(r: Readers, init: seq<string>, last: string, k: nat, i: nat)
    requires k <= |init| && SmallestAt(r, init, k, i)
    requires Numeric(r, last) ==> i + 1 != k && AtMost(NumberOf(r, init[i]), NumberOf(r, last))
    ensures SmallestAt(r, init + [last], k, i)
  {
    hide Strip, AtMost;
    var all := init + [last];
    assert forall j :: 0 <= j < |init| ==> all[j] == init[j];
    assert all[|init|] == last;
  }

  lemma NewStands(r: Readers, init: seq<string>, last: string, k: nat, i: nat)
    requires k <= |init| && SmallestAt(r, init, k, i) && Numeric(r, last) && !IsNan(r, last)
    requires i + 1 != k ==> !AtMost(NumberOf(r, init[i]), NumberOf(r, last))
    ensures SmallestAt(r, init + [last], k, |init|)
  {
    hide Strip, AtMost;
    var all := init + [last];
    assert forall j :: 0 <= j < |init| ==> all[j] == init[j];
    assert all[|init|] == last;
    AtMostIsTotal(NumberOf(r, last), NumberOf(r, last));
    if i + 1 != k {
      AtMostIsTotal(NumberOf(r, init[i]), NumberOf(r, init[i]));
      AtMostIsTotal(NumberOf(r, init[i]), NumberOf(r, last));
      AtMostIsTotal(NumberOf(r, last), NumberOf(r, init[i]));
      forall j | k <= j < |init| && Numeric(r, init[j]) ensures AtMost(NumberOf(r, last), NumberOf(r, init[j])) {
        AtMostIsTransitive(NumberOf(r, last), NumberOf(r, init[i]), NumberOf(r, init[j]));
      }
    }
  }

  lemma SmallestOf(r: Readers, readings: seq<string>, worst: string) returns (i: nat)
    requires SmallestSinceNan(r, readings, worst)
    ensures i < |readings| && SmallestAt(r, readings, AfterNan(r, readings), i)
    ensures Strip(readings[i]) == worst && Numeric(r, readings[i]) && i + 1 >= AfterNan(r, readings)
  {
    hide Strip, AfterNan, AtMost;
    i :| 0 <= i < |readings| && SmallestAt(r, readings, AfterNan(r, readings), i) && Strip(readings[i]) == worst;
  }

  lemma IsSmallest(r: Readers, init: seq<string>, last: string, i: nat)
    requires i <= |init|
    requires SmallestAt(r, init + [last], if IsNan(r, last) then |init| + 1 else AfterNan(r, init), i)
    ensures SmallestSinceNan(r, init + [last], if i == |init| then Strip(last) else Strip(init[i]))
  {
    hide Strip, AtMost, SmallestAt, AfterNan, IsNan;
    FoldStep(r, init, last);
    var all := init + [last];
    assert all[i] == if i == |init| then last else init[i];
  }

  /** A number next to a number: kept if at most the new one, else replaced. */
  lemma SmallestStep(r: Readers, init: seq<string>, last: string, worst: string)
    requires SmallestSinceNan(r, init, worst) && Numeric(r, last) && r.number(worst).Some?
    ensures SmallestSinceNan(r, init + [last],
              if AtMost(r.number(worst).value, NumberOf(r, last)) then worst else Strip(last))
  {
    hide Strip, AtMost, SmallestAt, AfterNan, SmallestSinceNan;
    var k := AfterNan(r, init);
    var i := SmallestOf(r, init, worst);
    NanAt(r, init);
    AtMostIsTotal(r.number(worst).value, NumberOf(r, last));
    if IsNan(r, last) {
      NanStarts(r, init, last);
      IsSmallest(r, init, last, |init|);
    } else if AtMost(r.number(worst).value, NumberOf(r, last)) {
      KeptStands(r, init, last, k, i);
      IsSmallest(r, init, last, i);
    } else {
      NewStands(r, init, last, k, i);
      IsSmallest(r, init, last, |init|);
    }
  }

  lemma SmallestStays(r: Readers, init: seq<string>, last: string, worst: string)
    requires SmallestSinceNan(r, init, worst) && !Numeric(r, last)
    ensures SmallestSinceNan(r, init + [last], worst)
  {
    hide Strip, AtMost, SmallestAt, AfterNan, SmallestSinceNan;
    var i := SmallestOf(r, init, worst);
    KeptStands(r, init, last, AfterNan(r, init), i);
    IsSmallest(r, init, last, i);
  }

  /**
   What folding any readings comes to.  Nothing, if there is no reading.  A first reading
   that is no number stays for good.  Otherwise texts that are no numbers are ignored,
   and the result is a smallest of the numbers since the last NaN, whatever their order.
   */
  lemma {:induction false} FoldWorseIsMinimum(r: Readers, readings: seq<string>)
    ensures var worst, first := FoldWorse(r, readings), FirstReading(readings);
            if first == "" || r.number(first).None? then worst == first
            else worst != "" && r.number(worst).Some? && SmallestSinceNan(r, readings, worst)
  {
    hide Strip, SmallestSinceNan, AfterNan;
    if readings != [] {
      var init, last := readings[..|readings|-1], readings[|readings|-1];
      FoldWorseIsMinimum(r, init);
      FoldStep(r, init, last);
      FoldWorseIsStripped(r, init);
      FirstIsStripped(init);
      StripTwice(last);
      assert readings == init + [last];
      if FirstReading(init) == "" {
        if Numeric(r, last) {
          OnlyNumber(r, init, last);
        }
      } else if r.number(FirstReading(init)).Some? {
        if Numeric(r, last) {
          SmallestStep(r, init, last, FoldWorse(r, init));
        } else {
          SmallestStays(r, init, last, FoldWorse(r, init));
        }
      }
    }
  }

  lemma StripTwice(s: string)
    ensures Strip(Strip(s)) == Strip(s)
  {
    StripIsIdentityIff(Strip(s));
  }

  lemma {:induction false} FirstIsStripped(readings: seq<string>)
    ensures Strip(FirstReading(readings)) == FirstReading(readings)
    ensures FirstReading(readings) == "" ==> forall i :: 0 <= i < |readings| ==> Strip(readings[i]) == ""
  {
    hide Strip;
    if readings != [] {
      FirstIsStripped(readings[..|readings|-1]);
      StripTwice(readings[|readings|-1]);
    } else {
      assert Strip("") == "" by { StripBlank(""); }
    }
  }

  /** The first number of all, after blank readings only. */
  lemma OnlyNumber(r: Readers, init: seq<string>, last: string)
    requires FirstReading(init) == "" && Numeric(r, last)
    ensures SmallestSinceNan(r, init + [last], Strip(last))
  {
    hide Strip;
    FirstIsStripped(init);
    FoldStep(r, init, last);
    NanAt(r, init);
    var all := init + [last];
    assert all[|init|] == last;
    assert forall j :: 0 <= j < |init| ==> all[j] == init[j] && !Numeric(r, all[j]);
    AtMostIsTotal(NumberOf(r, last), NumberOf(r, last));
    assert SmallestAt(r, all, AfterNan(r, all), |init|);
  }

  // ---- Events ----

  function FillDetails(details: seq<string>, more: seq<string>): seq<string> {
    seq(|details|, i requires 0 <= i < |details| =>
      if details[i] == "" && i < |more| && more[i] != "" then more[i] else details[i])
  }

  /** A group takes in another candidate; what the group was first stays. */
  function MergeEvent(r: Readers, primary: Event, candidate: Event): Event {
    primary.(
      worstSide := MergeSide(primary.worstSide, candidate.worstSide),
      worstAp := Worse(r, primary.worstAp, candidate.worstAp),
      worstSwitch := Worse(r, primary.worstSwitch, candidate.worstSwitch),
      worstRx := Worse(r, primary.worstRx, candidate.worstRx),
      revisionLast := JoinTokens(primary.revisionLast, candidate.revisionLast),
      source := JoinTokens(primary.source, candidate.source),
      quality := JoinTokens(primary.quality, candidate.quality),
      evidenceKeys := Dedup(primary.evidenceKeys + candidate.evidenceKeys),
      audits := primary.audits + candidate.audits,
      details := FillDetails(primary.details, candidate.details))
  }

  /** What an update writes over an existing row: provenance only. */
  function AppendEvidence(existing: Event, candidate: Event): Event {
    existing.(
      backfillKey := if existing.backfillKey != "" then existing.backfillKey else candidate.backfillKey,
      source := JoinTokens(existing.source, candidate.source),
      quality := JoinTokens(existing.quality, candidate.quality),
      revisionFirst := if existing.revisionFirst != "" then existing.revisionFirst else candidate.revisionFirst,
      revisionLast := JoinTokens(existing.revisionLast, candidate.revisionLast),
      evidenceKeys := Dedup(NonEmpty(existing.evidenceKeys + candidate.evidenceKeys)),
      audits := existing.audits + candidate.audits)
  }

  function Timestamp(r: Readers, value: string): string {
    if Strip(value) != "" && r.isTimestamp(Strip(value)) then Strip(value) else ""
  }

  predicate CoversSummary(r: Readers, summary: Event, candidate: Event) {
    var start := Timestamp(r, candidate.firstDetectedAt);
    var from := Timestamp(r, summary.firstDetectedAt);
    var to := Timestamp(r, if summary.resolvedAt != "" then summary.resolvedAt else summary.lastAbnormalAt);
    summary.identity == candidate.identity &&
    start != "" && from != "" && to != "" && r.notAfter(from, start) && r.notAfter(start, to)
  }
}
