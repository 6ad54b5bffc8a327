/**
 Ids of generated incidents: a readable base, cut to fit, and a numbered suffix when the
 base is taken. Different suffixes give different ids, so the search for a free one ends.
 */
module IncidentIds {
  import opened Collections

  const BASE_LENGTH := 74
  const ID_LENGTH := 80

  function Digit(d: nat): char
    requires d < 10
  {
    ('0' as int + d) as char
  }

  function Decimal(n: nat): (s: string)
    ensures s != [] && forall k :: 0 <= k < |s| ==> '0' <= s[k] <= '9'
  {
    if n < 10 then [Digit(n)] else Decimal(n / 10) + [Digit(n % 10)]
  }

  lemma {:induction false} DecimalInjective(m: nat, n: nat)
    requires Decimal(m) == Decimal(n)
    ensures m == n
  {
    var x, y := Decimal(m), Decimal(n);
    assert x[|x| - 1] == y[|y| - 1];
    if m >= 10 && n >= 10 {
      assert x[..|x| - 1] == Decimal(m / 10) && y[..|y| - 1] == Decimal(n / 10);
      DecimalInjective(m / 10, n / 10);
    } else if m >= 10 {
      LongDecimal(m);
    } else if n >= 10 {
      LongDecimal(n);
    }
  }

  lemma LongDecimal(n: nat)
    requires n >= 10
    ensures |Decimal(n)| >= 2
  {
  }

  lemma {:induction false} DecimalGrows(m: nat, n: nat)
    requires m <= n
    ensures |Decimal(m)| <= |Decimal(n)|
  {
    if m >= 10 {
      DecimalGrows(m / 10, n / 10);
    }
  }

  predicate Plain(c: char) {
    'a' <= c <= 'z' || 'A' <= c <= 'Z' || '0' <= c <= '9' || c == '_' || c == '-'
  }

  function Normalized(ruleId: string): (s: string)
    ensures |s| == |ruleId| && forall k :: 0 <= k < |s| ==> Plain(s[k])
  {
    seq(|ruleId|, k requires 0 <= k < |ruleId| => if Plain(ruleId[k]) then ruleId[k] else '-')
  }

  /** slice(0, end), where a negative end counts from the back. */
  function Slice(s: string, end: int): (r: string)
    ensures r <= s && (end >= 0 ==> |r| <= end)
  {
    if end >= |s| then s
    else if end >= 0 then s[..end]
    else if |s| + end >= 0 then s[..|s| + end]
    else []
  }

  function Base(ruleId: string, occurrence: nat): (s: string)
    ensures |s| <= BASE_LENGTH
  {
    Slice("seeded-" + Normalized(ruleId) + "-" + Decimal(occurrence), BASE_LENGTH)
  }

  function Marker(suffix: nat): string {
    "-" + Decimal(suffix)
  }

  function Suffixed(base: string, suffix: nat): string {
    Slice(base, ID_LENGTH - |Marker(suffix)|) + Marker(suffix)
  }

  predicate NoHyphen(s: string) {
    forall k :: 0 <= k < |s| ==> s[k] != '-'
  }

  lemma LastHyphenIsNotLater(p: string, x: string, q: string, y: string)
    requires p + ("-" + x) == q + ("-" + y) && NoHyphen(y)
    ensures |p| <= |q|
  {
    var text := p + ("-" + x);
    assert text[|p|] == '-';
    assert text[|q| + 1..] == y;
  }

  /** What stands behind the last hyphen can be read off. */
  lemma BehindLastHyphen(p: string, x: string, q: string, y: string)
    requires p + ("-" + x) == q + ("-" + y) && NoHyphen(x) && NoHyphen(y)
    ensures x == y
  {
    LastHyphenIsNotLater(p, x, q, y);
    LastHyphenIsNotLater(q, y, p, x);
    assert (p + ("-" + x))[|p| + 1..] == x && (q + ("-" + y))[|q| + 1..] == y;
  }

  lemma SuffixedInjective(base: string, i: nat, j: nat)
    requires Suffixed(base, i) == Suffixed(base, j)
    ensures i == j
  {
    BehindLastHyphen(Slice(base, ID_LENGTH - |Marker(i)|), Decimal(i), Slice(base, ID_LENGTH - |Marker(j)|),
                     Decimal(j));
    DecimalInjective(i, j);
  }

  /** An id with a suffix fits exactly as long as the marker itself does. */
  lemma SuffixedFits(base: string, suffix: nat)
    requires |base| <= BASE_LENGTH
    ensures |Suffixed(base, suffix)| <= ID_LENGTH <==> |Marker(suffix)| <= ID_LENGTH
  {
  }

  /** The first ids tried with a suffix. */
  ghost function Tried(base: string, n: nat): (ids: seq<string>)
    ensures |ids| == n && forall k :: 0 <= k < n ==> ids[k] == Suffixed(base, k + 2)
  {
    seq(n, k requires 0 <= k => Suffixed(base, k + 2))
  }

  /** As many suffixes as there are reserved ids cannot all be taken, and one more besides. */
  lemma TriedAtMostReserved(base: string, reserved: set<string>, n: nat)
    requires forall k: nat :: 2 <= k < n + 2 ==> Suffixed(base, k) in reserved
    ensures n <= |reserved|
  {
    var ids := Tried(base, n);
    forall i, j | 0 <= i < j < |ids|
      ensures ids[i] != ids[j]
    {
      if ids[i] == ids[j] {
        SuffixedInjective(base, i + 2, j + 2);
      }
    }
    assert forall id :: id in ids ==> id in reserved;
    DistinctBounded(ids, reserved);
  }

  /** A free id: the base, or the base with the first suffix that is free. */
  method GeneratedIncidentId(ruleId: string, occurrence: nat, reservedIds: set<string>)
    returns (id: string, reserved: set<string>)
    ensures id !in reservedIds && reserved == reservedIds + {id}
    ensures Base(ruleId, occurrence) !in reservedIds ==> id == Base(ruleId, occurrence)
    ensures Base(ruleId, occurrence) in reservedIds ==>
              exists suffix: nat :: 2 <= suffix <= |reservedIds| + 2 && id == Suffixed(Base(ruleId, occurrence), suffix)
                                    && forall k: nat :: 2 <= k < suffix ==>
                                         Suffixed(Base(ruleId, occurrence), k) in reservedIds
    ensures |Decimal(|reservedIds| + 2)| < ID_LENGTH ==> |id| <= ID_LENGTH
  {
    var base := Base(ruleId, occurrence);
    var candidate := base;
    var suffix: nat := 2;
    while candidate in reservedIds
      invariant 2 <= suffix <= |reservedIds| + 3
      invariant forall k: nat :: 2 <= k < suffix - 1 ==> Suffixed(base, k) in reservedIds
      invariant candidate == if suffix == 2 then base else Suffixed(base, suffix - 1)
      invariant suffix > 2 ==> base in reservedIds
      decreases |reservedIds| + 3 - suffix
    {
      TriedAtMostReserved(base, reservedIds, suffix - 2);
      candidate := Suffixed(base, suffix);
      suffix := suffix + 1;
    }
    if suffix > 2 {
      DecimalGrows(suffix - 1, |reservedIds| + 2);
      SuffixedFits(base, suffix - 1);
    }
    id, reserved := candidate, reservedIds + {candidate};
  }
}
