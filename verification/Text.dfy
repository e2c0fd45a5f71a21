/** Python string operations the modelled tools rely on: strip, casefold (on ASCII), count. */
module Text {
  import opened Bytes

  /** What `str.strip` removes. */
  predicate IsSpace(c: char) {
    var n := c as int;
    || 0x09 <= n <= 0x0d || 0x1c <= n <= 0x20 || n == 0x85 || n == 0xa0 || n == 0x1680
    || 0x2000 <= n <= 0x200a || n == 0x2028 || n == 0x2029 || n == 0x202f || n == 0x205f || n == 0x3000
  }

  predicate Blank(s: string) {
    forall i :: 0 <= i < |s| ==> IsSpace(s[i])
  }

  /** No space at either end. */
  predicate Stripped(s: string) {
    s == "" || (!IsSpace(s[0]) && !IsSpace(s[|s|-1]))
  }

  function Strip(s: string): (r: string)
    ensures Stripped(r)
    ensures |r| <= |s|
    decreases |s|
  {
    if s == "" then ""
    else if IsSpace(s[0]) then Strip(s[1..])
    else if IsSpace(s[|s|-1]) then Strip(s[..|s|-1])
    else s
  }

  lemma {:induction false} StripBlank(s: string)
    requires Blank(s)
    ensures Strip(s) == ""
    decreases |s|
  {
    if s != "" {
      StripBlank(s[1..]);
    }
  }

  lemma {:induction false} StripBefore(before: string, s: string)
    requires Blank(before)
    ensures Strip(before + s) == Strip(s)
  {
    if before == "" {
      assert before + s == s;
    } else {
      assert (before + s)[0] == before[0] && (before + s)[1..] == before[1..] + s;
      StripBefore(before[1..], s);
    }
  }

  lemma {:induction false} StripAfter(core: string, after: string)
    requires core != "" && Stripped(core) && Blank(after)
    ensures Strip(core + after) == core
  {
    if after == "" {
      assert core + after == core;
    } else {
      var s, n := core + after, |after| - 1;
      assert s[0] == core[0] && s[|s|-1] == after[n] && s[..|s|-1] == core + after[..n];
      StripAfter(core, after[..n]);
    }
  }

  /** Padding with spaces is undone by stripping. */
  lemma StripPadded(before: string, core: string, after: string)
    requires Blank(before) && Stripped(core) && Blank(after)
    ensures Strip(before + core + after) == core
  {
    assert before + core + after == before + (core + after);
    StripBefore(before, core + after);
    if core == "" {
      assert core + after == after;
      StripBlank(after);
    } else {
      StripAfter(core, after);
    }
  }

  function FoldChar(c: char): char {
    if 'A' <= c <= 'Z' then (c as int + 32) as char else c
  }

  function Fold(s: string): (r: string)
    ensures |r| == |s|
    ensures forall i :: 0 <= i < |s| ==> r[i] == FoldChar(s[i])
  {
    seq(|s|, i requires 0 <= i < |s| => FoldChar(s[i]))
  }

  predicate EndsWith(s: string, suffix: string) {
    |s| >= |suffix| && s[|s|-|suffix|..] == suffix
  }

  /** A relative path, part by part. */
  type Path = seq<string>

  function FoldPath(p: Path): (slot: Path)
    ensures |slot| == |p|
  {
    seq(|p|, i requires 0 <= i < |p| => Fold(p[i]))
  }

  /** `s.count("\n")`. */
  function Newlines(s: string): nat {
    if s == "" then 0 else (if s[|s|-1] == '\n' then 1 else 0) + Newlines(s[..|s|-1])
  }

  lemma {:induction false} NewlinesAppend(a: string, b: string)
    ensures Newlines(a + b) == Newlines(a) + Newlines(b)
  {
    if b == "" {
      assert a + b == a;
    } else {
      assert (a + b)[..|a + b|-1] == a + b[..|b|-1];
      NewlinesAppend(a, b[..|b|-1]);
    }
  }

  lemma {:induction false} NoNewlines(s: string)
    ensures Newlines(s) == 0 <==> '\n' !in s
  {
    if s != "" {
      NoNewlines(s[..|s|-1]);
      assert s == s[..|s|-1] + [s[|s|-1]];
    }
  }

  lemma SliceOfSlice(s: string, start: nat, end: nat, lo: nat, hi: nat)
    requires start <= lo <= hi <= end <= |s|
    ensures s[start..end][lo - start..hi - start] == s[lo..hi]
    ensures hi == end ==> s[start..end][lo - start..] == s[lo..end]
    ensures lo == start ==> s[start..end][..hi - start] == s[start..hi]
  {
    var t := s[start..end];
    forall k | 0 <= k < hi - lo ensures t[lo - start..hi - start][k] == s[lo..hi][k] {
      assert t[lo - start..hi - start][k] == t[lo - start + k];
    }
  }

  function IndexOf(s: string, c: char): (r: Option<nat>)
    ensures r.None? <==> c !in s
    ensures r.Some? ==> r.value < |s| && s[r.value] == c && c !in s[..r.value]
    decreases |s|
  {
    if s == "" then None
    else if s[0] == c then Some(0)
    else
      var rest := IndexOf(s[1..], c);
      assert rest.Some? ==> s[..rest.value + 1] == [s[0]] + s[1..][..rest.value];
      match rest case None => None case Some(i) => Some(i + 1)
  }

  lemma IndexOfFirst(a: string, c: char, b: string)
    requires c !in a
    ensures IndexOf(a + [c] + b, c) == Some(|a|)
  {
    var s := a + [c] + b;
    assert s[|a|] == c;
    assert s[..|a|] == a;
  }
}
