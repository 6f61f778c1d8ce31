/**
  The filter–group–pair engine that turns the multi-way alignments of one
  chromatin-contact read into synthetic paired-end records.

  The record source is a sequence of alignments in file order (the reader's
  own `filter=!flag.unmap` option has already removed unmapped records); the
  sink is the sequence of records written, in write order.
*/
module PairedBam {
  import opened Outcomes
  import opened Text

  /** The parts of a record the engine never looks at: read sequence, base
      qualities, CIGAR string and the auxiliary tags other than NM. */
  datatype Payload = Payload(sequence: string, qualities: seq<nat>, cigar: string, tags: seq<(string, string)>)

  /** One alignment record. `nm` is the NM tag (edit distance) when the record
      carries one; `nextReferenceName` is RNEXT, absent (`*`) for a single-end record. */
  datatype Alignment = Alignment(
    queryName: string,
    flag: int,
    referenceName: string,
    referenceStart: int,
    mapq: nat,
    nm: Option<int>,
    queryAlignmentLength: nat,
    nextReferenceName: Option<string>,
    nextReferenceStart: int,
    payload: Payload)

  /** The run's thresholds: `--mapq`, `--percent_identity`, `--alignment_length`. */
  datatype Thresholds = Thresholds(mapq: int, percentIdentity: real, alignmentLength: int)

  /** The ways the run aborts. */
  datatype EngineError =
    | MissingNmTag         // `get_tag('NM')` on a record without the tag
    | ZeroAlignmentLength  // the percent identity divides by a zero alignment length
    | EmptySource          // the final flush reads the loop variable of a loop that never ran

  datatype Verdict = Keep | Drop | Abort(error: EngineError)

  // ---------------------------------------------------------------------------
  // Record filter

  /** `(1 - NM / query_alignment_length) * 100`, over exact reals. */
  function PercentIdentity(nm: int, alignmentLength: nat): real
    requires alignmentLength > 0
  {
    (1.0 - nm as real / alignmentLength as real) * 100.0
  }

  lemma PercentIdentityCrossMultiplied(nm: int, alignmentLength: nat, threshold: real)
    requires alignmentLength > 0
    ensures PercentIdentity(nm, alignmentLength) >= threshold
      <==> 100.0 * (alignmentLength - nm) as real >= threshold * alignmentLength as real
  {
    var q := alignmentLength as real;
    var p := PercentIdentity(nm, alignmentLength);
    assert p * q == 100.0 * (alignmentLength - nm) as real by {
      assert nm as real / q * q == nm as real;
    }
    if p >= threshold {
      assert p * q >= threshold * q;
    } else {
      assert p * q < threshold * q;
    }
  }

  /** The three tests of the record loop, in source order. */
  function Screen(aln: Alignment, cfg: Thresholds): (v: Verdict)
    ensures v == Keep <==>
      && aln.mapq >= cfg.mapq
      && aln.nm.Some? && aln.queryAlignmentLength > 0
      && 100.0 * (aln.queryAlignmentLength - aln.nm.value) as real
           >= cfg.percentIdentity * aln.queryAlignmentLength as real
      && aln.queryAlignmentLength >= cfg.alignmentLength
    ensures v == Abort(MissingNmTag) <==> aln.mapq >= cfg.mapq && aln.nm.None?
    ensures v == Abort(ZeroAlignmentLength) <==>
      aln.mapq >= cfg.mapq && aln.nm.Some? && aln.queryAlignmentLength == 0
    ensures v != Abort(EmptySource)
  {
    if aln.mapq < cfg.mapq then Drop
    else if aln.nm.None? then Abort(MissingNmTag)
    else if aln.queryAlignmentLength == 0 then Abort(ZeroAlignmentLength)
    else
      PercentIdentityCrossMultiplied(aln.nm.value, aln.queryAlignmentLength, cfg.percentIdentity);
      if PercentIdentity(aln.nm.value, aln.queryAlignmentLength) < cfg.percentIdentity then Drop
      else if aln.queryAlignmentLength < cfg.alignmentLength then Drop
      else Keep
  }

  // ---------------------------------------------------------------------------
  // Pairing: one synthetic pair per two-element combination of a group

  /** MAPQ rescue: with a zero MAPQ threshold a zero MAPQ becomes 1. */
  function Rescue(mapq: nat, threshold: int): (r: nat)
    ensures threshold == 0 ==> r > 0 && (mapq > 0 ==> r == mapq)
    ensures threshold != 0 ==> r == mapq
  {
    if threshold == 0 && mapq == 0 then 1 else mapq
  }

  /** The synthetic read name of the `n`-th pair (`'_read{}'.format(n)`). */
  function MockName(a: Alignment, n: nat): string {
    a.queryName + "_read" + NatToString(n)
  }

  /** First half of pair `n` built from the originals `a` and `b`. */
  function FirstHalf(a: Alignment, b: Alignment, n: nat, threshold: int): Alignment {
    a.(queryName := MockName(a, n),
       flag := a.flag + 65 + 2 * b.flag,
       nextReferenceName := Some(b.referenceName),
       nextReferenceStart := b.referenceStart,
       mapq := Rescue(a.mapq, threshold))
  }

  /** Second half of pair `n` built from the originals `a` and `b`. */
  function SecondHalf(a: Alignment, b: Alignment, n: nat, threshold: int): Alignment {
    b.(queryName := MockName(a, n),
       flag := b.flag + 129 + 2 * a.flag,
       nextReferenceName := Some(a.referenceName),
       nextReferenceStart := a.referenceStart,
       mapq := Rescue(b.mapq, threshold))
  }

  /** The pairs `(x, rest[j])`, in the order of `rest`. */
  function Row<T>(x: T, rest: seq<T>): (r: seq<(T, T)>)
    ensures |r| == |rest|
    ensures forall j {:trigger r[j]} :: 0 <= j < |rest| ==> r[j] == (x, rest[j])
  {
    seq(|rest|, j requires 0 <= j < |rest| => (x, rest[j]))
  }

  /** `itertools.combinations(g, 2)`: every `(g[i], g[j])` with `i < j`, in
      lexicographic order of `(i, j)`. */
  function Combinations2<T>(g: seq<T>): seq<(T, T)> {
    if g == [] then [] else Row(g[0], g[1..]) + Combinations2(g[1..])
  }

  /** The number of two-element combinations of `k` things. */
  function Choose2(k: nat): nat {
    if k == 0 then 0 else (k - 1) + Choose2(k - 1)
  }

  /** The position of combination `(i, j)` in lexicographic order. */
  function Rank(k: nat, i: nat, j: nat): nat
    requires i < j < k
    decreases i
  {
    if i == 0 then j - 1 else (k - 1) + Rank(k - 1, i - 1, j - 1)
  }

  /** The records written for a list of pairs, enumerated from 0: first half,
      then second half, pair after pair. */
  function Emit(pairs: seq<(Alignment, Alignment)>, threshold: int): (out: seq<Alignment>)
    ensures |out| == 2 * |pairs|
  {
    seq(2 * |pairs|, t requires 0 <= t < 2 * |pairs| =>
      var p := pairs[t / 2];
      if t % 2 == 0 then FirstHalf(p.0, p.1, t / 2, threshold)
      else SecondHalf(p.0, p.1, t / 2, threshold))
  }

  /** Everything written when a group is flushed. */
  function GroupPairs(g: seq<Alignment>, threshold: int): seq<Alignment> {
    Emit(Combinations2(g), threshold)
  }

  lemma {:induction false} Choose2Closed(k: nat)
    ensures 2 * Choose2(k) == k * (k - 1)
  {
    if k > 0 {
      Choose2Closed(k - 1);
      assert (k - 1) * (k - 2) + 2 * (k - 1) == k * (k - 1);
    }
  }

  lemma {:induction false} CombinationsLength<T>(g: seq<T>)
    ensures |Combinations2(g)| == Choose2(|g|)
  {
    if g != [] {
      CombinationsLength(g[1..]);
    }
  }

  /** Combination `(i, j)` sits at position `Rank(|g|, i, j)`. */
  lemma {:induction false} CombinationsAt<T>(g: seq<T>, i: nat, j: nat)
    requires i < j < |g|
    ensures Rank(|g|, i, j) < |Combinations2(g)|
    ensures Combinations2(g)[Rank(|g|, i, j)] == (g[i], g[j])
    decreases i
  {
    var r := Rank(|g|, i, j);
    RankBelow(|g|, i, j);
    CombinationsLength(g);
    CombinationsSplit(g, r);
    if i > 0 {
      var rest := g[1..];
      CombinationsAt(rest, i - 1, j - 1);
      RankShift(|g|, i, j);
      assert rest[i - 1] == g[i] && rest[j - 1] == g[j];
    }
  }

  /** Every rank is a position among the `Choose2(k)` combinations. */
  lemma {:induction false} RankBelow(k: nat, i: nat, j: nat)
    requires i < j < k
    ensures Rank(k, i, j) < Choose2(k)
    decreases i
  {
    if i > 0 {
      RankBelow(k - 1, i - 1, j - 1);
    }
  }

  /** Entry `t` of the combinations of a non-empty group: from the first row
      when `t < |g| - 1`, and otherwise from the combinations of the rest. */
  lemma CombinationsSplit<T>(g: seq<T>, t: nat)
    requires g != []
    ensures |Combinations2(g)| == |g| - 1 + |Combinations2(g[1..])|
    ensures t < |g| - 1 ==> Combinations2(g)[t] == (g[0], g[t + 1])
    ensures |g| - 1 <= t < |Combinations2(g)| ==>
      Combinations2(g)[t] == Combinations2(g[1..])[t - (|g| - 1)]
  {
    var row, rest := Row(g[0], g[1..]), Combinations2(g[1..]);
    assert Combinations2(g) == row + rest;
    if t < |row| {
      assert (row + rest)[t] == row[t];
    } else if t < |row| + |rest| {
      assert (row + rest)[t] == rest[t - |row|];
    }
  }

  /** Every combination is a pair `(g[i], g[j])` with `i < j`, sitting at
      its rank: together with `CombinationsAt`, the combinations are exactly
      the index pairs `i < j`, each once, in lexicographic order. */
  lemma CombinationsMembers<T>(g: seq<T>, t: nat)
    requires t < |Combinations2(g)|
    ensures exists i: nat, j: nat :: i < j < |g| && t == Rank(|g|, i, j) && Combinations2(g)[t] == (g[i], g[j])
    ensures Combinations2(g)[t].0 in g && Combinations2(g)[t].1 in g
  {
    var i, j := CombinationsIndex(g, t);
  }

  /** The index pair of combination `t`. */
  lemma {:induction false} CombinationsIndex<T>(g: seq<T>, t: nat) returns (i: nat, j: nat)
    requires t < |Combinations2(g)|
    ensures i < j < |g| && t == Rank(|g|, i, j) && Combinations2(g)[t] == (g[i], g[j])
  {
    CombinationsSplit(g, t);
    if t < |g| - 1 {
      i, j := 0, t + 1;
    } else {
      var rest := g[1..];
      var i', j' := CombinationsIndex(rest, t - (|g| - 1));
      i, j := i' + 1, j' + 1;
      RankShift(|g|, i, j);
      assert rest[i'] == g[i] && rest[j'] == g[j];
    }
  }

  /** Dropping the first element shifts every rank down by the first row. */
  lemma RankShift(k: nat, i: nat, j: nat)
    requires 0 < i < j < k
    ensures Rank(k, i, j) == (k - 1) + Rank(k - 1, i - 1, j - 1)
  {
  }

  /** Pairs are enumerated in lexicographic order of their index pairs. */
  lemma {:induction false} RankLexicographic(k: nat, i: nat, j: nat, i2: nat, j2: nat)
    requires i < j < k && i2 < j2 < k
    requires i < i2 || (i == i2 && j < j2)
    ensures Rank(k, i, j) < Rank(k, i2, j2)
    decreases i
  {
    if i > 0 {
      RankLexicographic(k - 1, i - 1, j - 1, i2 - 1, j2 - 1);
    }
  }

  /** A group of `k` records writes `k * (k - 1)` records: none for `k <= 1`. */
  lemma GroupPairsCount(g: seq<Alignment>, threshold: int)
    ensures |GroupPairs(g, threshold)| == |g| * (|g| - 1)
    ensures |g| <= 1 ==> GroupPairs(g, threshold) == []
  {
    CombinationsLength(g);
    Choose2Closed(|g|);
  }

  /** What the pair built from `g[i]` and `g[j]` (`i < j`) looks like: its
      number `n` is its lexicographic rank, both halves carry the name
      `<name>_read<n>`, the first half (written at `2n`) is a copy of `g[i]`, the
      second (written at `2n + 1`) a copy of `g[j]`; flags are computed from the
      originals' flags, mate fields are crossed, MAPQ is rescued, and nothing
      else is touched. */
  lemma GroupPairsAt(g: seq<Alignment>, threshold: int, i: nat, j: nat)
    requires i < j < |g|
    ensures var n := Rank(|g|, i, j);
      var out := GroupPairs(g, threshold);
      var a, b := g[i], g[j];
      && 2 * n + 1 < |out|
      && out[2 * n].queryName == out[2 * n + 1].queryName == a.queryName + "_read" + NatToString(n)
      && out[2 * n].flag == a.flag + 65 + 2 * b.flag
      && out[2 * n + 1].flag == b.flag + 129 + 2 * a.flag
      && out[2 * n].nextReferenceName == Some(b.referenceName)
      && out[2 * n].nextReferenceStart == b.referenceStart
      && out[2 * n + 1].nextReferenceName == Some(a.referenceName)
      && out[2 * n + 1].nextReferenceStart == a.referenceStart
      && out[2 * n].mapq == (if threshold == 0 && a.mapq == 0 then 1 else a.mapq)
      && out[2 * n + 1].mapq == (if threshold == 0 && b.mapq == 0 then 1 else b.mapq)
      && out[2 * n].referenceName == a.referenceName && out[2 * n].referenceStart == a.referenceStart
      && out[2 * n + 1].referenceName == b.referenceName && out[2 * n + 1].referenceStart == b.referenceStart
      && out[2 * n].nm == a.nm && out[2 * n].queryAlignmentLength == a.queryAlignmentLength
      && out[2 * n + 1].nm == b.nm && out[2 * n + 1].queryAlignmentLength == b.queryAlignmentLength
      && out[2 * n].payload == a.payload && out[2 * n + 1].payload == b.payload
  {
    var n := Rank(|g|, i, j);
    CombinationsAt(g, i, j);
    EmitAt(Combinations2(g), threshold, n);
    var out := GroupPairs(g, threshold);
    assert out[2 * n] == FirstHalf(g[i], g[j], n, threshold);
    assert out[2 * n + 1] == SecondHalf(g[i], g[j], n, threshold);
  }

  /** All members of a group carry one read name. */
  ghost predicate SameName(g: seq<Alignment>) {
    g != [] && forall y :: y in g ==> y.queryName == g[0].queryName
  }

  /** Pair `t` is written at positions `2t` and `2t + 1`. */
  lemma EmitAt(pairs: seq<(Alignment, Alignment)>, threshold: int, t: nat)
    requires t < |pairs|
    ensures 2 * t + 1 < |Emit(pairs, threshold)|
    ensures Emit(pairs, threshold)[2 * t] == FirstHalf(pairs[t].0, pairs[t].1, t, threshold)
    ensures Emit(pairs, threshold)[2 * t + 1] == SecondHalf(pairs[t].0, pairs[t].1, t, threshold)
  {
    assert (2 * t) / 2 == t && (2 * t + 1) / 2 == t && (2 * t) % 2 == 0 && (2 * t + 1) % 2 == 1;
  }

  /** The name written for the `t`-th pair of a group is the group's read name
      followed by `_read<t>`. */
  lemma PairName(g: seq<Alignment>, threshold: int, t: nat)
    requires SameName(g)
    requires t < |Combinations2(g)|
    ensures 2 * t + 1 < |GroupPairs(g, threshold)|
    ensures GroupPairs(g, threshold)[2 * t].queryName == g[0].queryName + "_read" + NatToString(t)
    ensures GroupPairs(g, threshold)[2 * t + 1].queryName == g[0].queryName + "_read" + NatToString(t)
  {
    var ps := Combinations2(g);
    CombinationsMembers(g, t);
    assert ps[t].0.queryName == g[0].queryName;
    EmitAt(ps, threshold, t);
  }

  /** Within a group, different pairs get different synthetic names. */
  lemma PairNamesDistinct(g: seq<Alignment>, threshold: int, n: nat, m: nat)
    requires SameName(g)
    requires n < m < |Combinations2(g)|
    ensures GroupPairs(g, threshold)[2 * n].queryName != GroupPairs(g, threshold)[2 * m].queryName
  {
    PairName(g, threshold, n);
    PairName(g, threshold, m);
    var prefix := g[0].queryName + "_read";
    var x, y := prefix + NatToString(n), prefix + NatToString(m);
    NatToStringInjective(n, m);
    assert x[|prefix|..] == NatToString(n);
    assert y[|prefix|..] == NatToString(m);
  }

  /** Writing one more pair extends the output by its two halves. */
  lemma EmitSnoc(pairs: seq<(Alignment, Alignment)>, p: (Alignment, Alignment), threshold: int)
    ensures Emit(pairs + [p], threshold)
      == Emit(pairs, threshold) + [FirstHalf(p.0, p.1, |pairs|, threshold), SecondHalf(p.0, p.1, |pairs|, threshold)]
  {
    var lhs := Emit(pairs + [p], threshold);
    var rhs := Emit(pairs, threshold) + [FirstHalf(p.0, p.1, |pairs|, threshold), SecondHalf(p.0, p.1, |pairs|, threshold)];
    forall t | 0 <= t < |lhs| ensures lhs[t] == rhs[t] {
      if t < 2 * |pairs| {
        assert (pairs + [p])[t / 2] == pairs[t / 2];
      }
    }
  }

  /** Lines 25-42 of the pair loop: copy both originals and rewrite the copies'
      name, flag, mate fields and MAPQ. */
  method MakePair(aln1: Alignment, aln2: Alignment, n: nat, threshold: int)
    returns (copy1: Alignment, copy2: Alignment)
    ensures copy1 == FirstHalf(aln1, aln2, n, threshold)
    ensures copy2 == SecondHalf(aln1, aln2, n, threshold)
  {
    copy1, copy2 := aln1, aln2;
    var mockReadName := copy1.queryName + "_read" + NatToString(n);
    copy1, copy2 := copy1.(queryName := mockReadName), copy2.(queryName := mockReadName);
    copy1 := copy1.(flag := copy1.flag + 65 + 2 * aln2.flag);
    copy2 := copy2.(flag := copy2.flag + 129 + 2 * aln1.flag);
    copy1 := copy1.(nextReferenceName := Some(aln2.referenceName));
    copy2 := copy2.(nextReferenceName := Some(aln1.referenceName));
    copy1 := copy1.(nextReferenceStart := aln2.referenceStart);
    copy2 := copy2.(nextReferenceStart := aln1.referenceStart);
    if threshold == 0 && copy1.mapq == 0 {
      copy1 := copy1.(mapq := 1);
    }
    if threshold == 0 && copy2.mapq == 0 {
      copy2 := copy2.(mapq := 1);
    }
  }

  /** `parse_current_aln_list`: writes one synthetic pair per two-element
      combination of the buffered group, enumerated from 0 (only when it holds
      more than one record), then restarts the buffer with `aln` and returns
      `aln`'s read name. */
  method FlushGroup(buffer: seq<Alignment>, aln: Alignment, threshold: int)
    returns (emitted: seq<Alignment>, newBuffer: seq<Alignment>, currentRead: string)
    ensures emitted == GroupPairs(buffer, threshold)
    ensures newBuffer == [aln] && currentRead == aln.queryName
  {
    emitted := [];
    if |buffer| > 1 {
      var combinations := Combinations2(buffer);
      for n := 0 to |combinations|
        invariant emitted == Emit(combinations[..n], threshold)
      {
        var (aln1, aln2) := combinations[n];
        var copy1, copy2 := MakePair(aln1, aln2, n, threshold);
        emitted := emitted + [copy1, copy2];
        EmitSnoc(combinations[..n], combinations[n], threshold);
        assert combinations[..n + 1] == combinations[..n] + [combinations[n]];
      }
      assert combinations[..|combinations|] == combinations;
    } else {
      GroupPairsCount(buffer, threshold);
    }
    newBuffer := [aln];
    currentRead := aln.queryName;
  }

  // ---------------------------------------------------------------------------
  // Filtering and grouping the whole stream

  /** The records that pass the filter, in arrival order. */
  function Kept(s: seq<Alignment>, cfg: Thresholds): seq<Alignment> {
    if s == [] then []
    else Kept(s[..|s| - 1], cfg) + (if Screen(s[|s| - 1], cfg) == Keep then [s[|s| - 1]] else [])
  }

  function Closed<T>(gs: seq<seq<T>>): seq<seq<T>> {
    if gs == [] then [] else gs[..|gs| - 1]
  }

  function LastGroup<T>(gs: seq<seq<T>>): seq<T> {
    if gs == [] then [] else gs[|gs| - 1]
  }

  function Flatten<T>(gs: seq<seq<T>>): seq<T> {
    if gs == [] then [] else Flatten(gs[..|gs| - 1]) + gs[|gs| - 1]
  }

  /** The maximal runs of consecutive records with one read name. */
  function Groups(k: seq<Alignment>): seq<seq<Alignment>> {
    if k == [] then []
    else
      var front, x := k[..|k| - 1], k[|k| - 1];
      var gs := Groups(front);
      if front != [] && front[|front| - 1].queryName == x.queryName then
        Closed(gs) + [LastGroup(gs) + [x]]
      else
        gs + [[x]]
  }

  /** The records written for a sequence of flushed groups. */
  function PairsOf(gs: seq<seq<Alignment>>, threshold: int): seq<Alignment> {
    if gs == [] then [] else PairsOf(gs[..|gs| - 1], threshold) + GroupPairs(gs[|gs| - 1], threshold)
  }

  /** What a run that reaches the end of a non-empty source writes. */
  function Output(source: seq<Alignment>, cfg: Thresholds): seq<Alignment> {
    PairsOf(Groups(Kept(source, cfg)), cfg.mapq)
  }

  /** The position of the first record whose screening aborts the run. */
  function FirstAbort(s: seq<Alignment>, cfg: Thresholds): (r: Option<nat>)
    ensures r.Some? ==>
      && r.value < |s| && Screen(s[r.value], cfg).Abort?
      && forall j :: 0 <= j < r.value ==> !Screen(s[j], cfg).Abort?
    ensures r.None? ==> forall j :: 0 <= j < |s| ==> !Screen(s[j], cfg).Abort?
  {
    if s == [] then None
    else if Screen(s[0], cfg).Abort? then Some(0)
    else match FirstAbort(s[1..], cfg)
      case None => None
      case Some(f) => Some(f + 1)
  }

  /** Screening one more record extends the kept stream by that record exactly when it passes. */
  lemma KeptSnoc(source: seq<Alignment>, i: nat, cfg: Thresholds)
    requires i < |source|
    ensures Kept(source[..i + 1], cfg)
      == Kept(source[..i], cfg) + (if Screen(source[i], cfg) == Keep then [source[i]] else [])
  {
    assert source[..i + 1][..i] == source[..i];
  }

  /** The first aborting record is the one the loop stops at. */
  lemma FirstAbortAt(s: seq<Alignment>, i: nat, cfg: Thresholds)
    requires i < |s| && Screen(s[i], cfg).Abort?
    requires forall j :: 0 <= j < i ==> !Screen(s[j], cfg).Abort?
    ensures FirstAbort(s, cfg) == Some(i)
  {
  }

  lemma NoAbortExtends(s: seq<Alignment>, i: nat, cfg: Thresholds)
    requires i < |s| && !Screen(s[i], cfg).Abort?
    requires forall j :: 0 <= j < i ==> !Screen(s[j], cfg).Abort?
    ensures forall j :: 0 <= j < i + 1 ==> !Screen(s[j], cfg).Abort?
  {
  }

  /** A record with the name of the last kept record joins the last group. */
  lemma GroupsSnocSame(k: seq<Alignment>, x: Alignment)
    requires k != [] && k[|k| - 1].queryName == x.queryName
    ensures Closed(Groups(k + [x])) == Closed(Groups(k))
    ensures LastGroup(Groups(k + [x])) == LastGroup(Groups(k)) + [x]
  {
    var k' := k + [x];
    assert k'[..|k'| - 1] == k && k'[|k'| - 1] == x;
    var c, l := Closed(Groups(k)), LastGroup(Groups(k));
    assert Groups(k') == c + [l + [x]];
    assert (c + [l + [x]])[..|c|] == c;
  }

  /** A record with another name closes the last group and opens a new one. */
  lemma GroupsSnocNew(k: seq<Alignment>, x: Alignment)
    requires k == [] || k[|k| - 1].queryName != x.queryName
    ensures Closed(Groups(k + [x])) == Groups(k)
    ensures LastGroup(Groups(k + [x])) == [x]
  {
    var k' := k + [x];
    assert k'[..|k'| - 1] == k && k'[|k'| - 1] == x;
    assert Groups(k') == Groups(k) + [[x]];
    assert (Groups(k) + [[x]])[..|Groups(k)|] == Groups(k);
  }

  lemma PairsOfSplit(gs: seq<seq<Alignment>>, threshold: int)
    ensures PairsOf(gs, threshold) == PairsOf(Closed(gs), threshold) + GroupPairs(LastGroup(gs), threshold)
  {
    if gs == [] {
      GroupPairsCount([], threshold);
    }
  }

  lemma {:induction false} GroupsNonEmpty(k: seq<Alignment>)
    ensures Groups(k) == [] <==> k == []
    ensures forall t :: 0 <= t < |Groups(k)| ==> Groups(k)[t] != []
  {
    if k != [] {
      GroupsNonEmpty(k[..|k| - 1]);
    }
  }

  /** The groups, read one after the other, are exactly the filtered stream. */
  lemma {:induction false} GroupsFlatten(k: seq<Alignment>)
    ensures Flatten(Groups(k)) == k
  {
    if k != [] {
      var front, x := k[..|k| - 1], k[|k| - 1];
      assert k == front + [x];
      var gs := Groups(front);
      GroupsFlatten(front);
      if front != [] && front[|front| - 1].queryName == x.queryName {
        GroupsNonEmpty(front);
        var c, l := Closed(gs), LastGroup(gs);
        assert gs == c + [l];
        FlattenSnoc(c, l);
        FlattenSnoc(c, l + [x]);
      } else {
        FlattenSnoc(gs, [x]);
      }
    }
  }

  lemma FlattenSnoc<T>(c: seq<seq<T>>, g: seq<T>)
    ensures Flatten(c + [g]) == Flatten(c) + g
  {
    assert (c + [g])[..|c|] == c;
  }

  /** Neighbouring groups carry different read names. */
  ghost predicate NeighboursDiffer(gs: seq<seq<Alignment>>) {
    forall t, u :: 0 <= t && u == t + 1 && u < |gs| ==>
      gs[t] != [] && gs[u] != [] && gs[t][0].queryName != gs[u][0].queryName
  }

  /** Every group is a run of one read name, the last group carries the name of
      the last kept record, and neighbouring groups have different names, so a
      name that comes back after another one starts a new group. */
  lemma {:induction false} GroupsNames(k: seq<Alignment>)
    ensures forall t :: 0 <= t < |Groups(k)| ==> SameName(Groups(k)[t])
    ensures k != [] ==> LastGroup(Groups(k)) != [] && LastGroup(Groups(k))[0].queryName == k[|k| - 1].queryName
    ensures NeighboursDiffer(Groups(k))
  {
    if k != [] {
      var front, x := k[..|k| - 1], k[|k| - 1];
      var gs := Groups(front);
      GroupsNames(front);
      GroupsNonEmpty(front);
      var gk := Groups(k);
      if front != [] && front[|front| - 1].queryName == x.queryName {
        var c, l := Closed(gs), LastGroup(gs);
        assert gk == c + [l + [x]];
        assert gs == c + [l];
        assert (l + [x])[0] == l[0];
        assert SameName(l + [x]);
        forall t | 0 <= t < |gk| ensures SameName(gk[t]) {
          if t < |c| { assert gk[t] == gs[t]; }
        }
        forall t, u | 0 <= t && u == t + 1 && u < |gk|
          ensures gk[t] != [] && gk[u] != [] && gk[t][0].queryName != gk[u][0].queryName
        {
          assert gk[t] == gs[t];
          if u < |c| { assert gk[u] == gs[u]; }
        }
      } else {
        assert gk == gs + [[x]];
        forall t | 0 <= t < |gk| ensures SameName(gk[t]) {
          if t < |gs| { assert gk[t] == gs[t]; }
        }
        forall t, u | 0 <= t && u == t + 1 && u < |gk|
          ensures gk[t] != [] && gk[u] != [] && gk[t][0].queryName != gk[u][0].queryName
        {
          assert gk[t] == gs[t];
          if u < |gs| { assert gk[u] == gs[u]; }
        }
      }
    }
  }

  /** The filter distributes over concatenation. */
  lemma {:induction false} KeptAppend(s1: seq<Alignment>, s2: seq<Alignment>, cfg: Thresholds)
    ensures Kept(s1 + s2, cfg) == Kept(s1, cfg) + Kept(s2, cfg)
    decreases |s2|
  {
    if s2 == [] {
      assert s1 + s2 == s1;
    } else {
      var s2' := s2[..|s2| - 1];
      assert (s1 + s2)[..|s1 + s2| - 1] == s1 + s2';
      KeptAppend(s1, s2', cfg);
    }
  }

  /** A record the filter drops changes nothing that is written. */
  lemma DroppedRecordIsInvisible(s1: seq<Alignment>, x: Alignment, s2: seq<Alignment>, cfg: Thresholds)
    requires Screen(x, cfg) == Drop
    ensures Output(s1 + [x] + s2, cfg) == Output(s1 + s2, cfg)
  {
    KeptAppend(s1 + [x], s2, cfg);
    KeptAppend(s1, [x], cfg);
    KeptAppend(s1, s2, cfg);
    assert Kept([x], cfg) == [] by { assert [x][..0] == []; }
    assert Kept(s1 + [x] + s2, cfg) == Kept(s1 + s2, cfg);
  }

  /** Every record kept by the filter passes it and comes from the source. */
  lemma {:induction false} KeptPasses(s: seq<Alignment>, cfg: Thresholds)
    ensures forall y :: y in Kept(s, cfg) ==> y in s && Screen(y, cfg) == Keep
  {
    if s != [] {
      KeptPasses(s[..|s| - 1], cfg);
    }
  }

  lemma {:induction false} FlattenMembers<T>(gs: seq<seq<T>>, t: nat, y: T)
    requires t < |gs| && y in gs[t]
    ensures y in Flatten(gs)
  {
    if t < |gs| - 1 {
      FlattenMembers(gs[..|gs| - 1], t, y);
    }
  }

  lemma {:induction false} PairsOfPass(gs: seq<seq<Alignment>>, cfg: Thresholds)
    requires forall t, y :: 0 <= t < |gs| && y in gs[t] ==> Screen(y, cfg) == Keep
    ensures forall r :: r in PairsOf(gs, cfg.mapq) ==> Screen(r, cfg) == Keep
  {
    if gs != [] {
      PairsOfPass(gs[..|gs| - 1], cfg);
      var g := gs[|gs| - 1];
      var out := GroupPairs(g, cfg.mapq);
      var ps := Combinations2(g);
      forall t | 0 <= t < |out| ensures Screen(out[t], cfg) == Keep {
        CombinationsMembers(g, t / 2);
        var p := ps[t / 2];
        assert Screen(p.0, cfg) == Keep && Screen(p.1, cfg) == Keep;
      }
    }
  }

  /** Filtering the engine's output again keeps every record: the rewrite never
      lowers MAPQ and leaves NM and the alignment length alone. */
  lemma OutputPassesFilter(source: seq<Alignment>, cfg: Thresholds)
    ensures forall r :: r in Output(source, cfg) ==> Screen(r, cfg) == Keep
  {
    var k := Kept(source, cfg);
    KeptPasses(source, cfg);
    GroupsFlatten(k);
    forall t, y | 0 <= t < |Groups(k)| && y in Groups(k)[t] ensures Screen(y, cfg) == Keep {
      FlattenMembers(Groups(k), t, y);
    }
    PairsOfPass(Groups(k), cfg);
  }

  /** The state of the record loop after the first `i` records: the buffer is
      the open group, `currentRead` the name of the last kept record, and the
      sink holds the pairs of every closed group. */
  ghost predicate LoopState(source: seq<Alignment>, i: nat, cfg: Thresholds,
                            buffer: seq<Alignment>, currentRead: Option<string>, sink: seq<Alignment>)
    requires i <= |source|
  {
    BufferState(Kept(source[..i], cfg), buffer, currentRead, sink, cfg.mapq)
  }

  /** After the kept records `k`: the buffer is their last group, the current
      read is the name of the last of them, and what was written is the pairs
      of the groups already closed. */
  ghost predicate BufferState(k: seq<Alignment>, buffer: seq<Alignment>, currentRead: Option<string>,
                              sink: seq<Alignment>, mapq: int)
  {
    && buffer == LastGroup(Groups(k))
    && currentRead == (if k == [] then None else Some(k[|k| - 1].queryName))
    && sink == PairsOf(Closed(Groups(k)), mapq)
  }

  /** The grouping step of `parse_bam_for_falign` for a kept record: the
      record joins the buffer when it has the current read name; otherwise the
      buffer is flushed and the record starts a new one. */
  method TakeRecord(ghost k: seq<Alignment>, aln: Alignment, buffer: seq<Alignment>, currentRead: Option<string>,
                    sink: seq<Alignment>, mapq: int)
    returns (buffer': seq<Alignment>, currentRead': Option<string>, sink': seq<Alignment>)
    requires BufferState(k, buffer, currentRead, sink, mapq)
    ensures BufferState(k + [aln], buffer', currentRead', sink', mapq)
  {
    if currentRead == Some(aln.queryName) {
      GroupsSnocSame(k, aln);
      buffer', currentRead', sink' := buffer + [aln], currentRead, sink;
    } else {
      GroupsSnocNew(k, aln);
      PairsOfSplit(Groups(k), mapq);
      var emitted, name;
      emitted, buffer', name := FlushGroup(buffer, aln, mapq);
      currentRead' := Some(name);
      sink' := sink + emitted;
    }
    assert (k + [aln])[|k|] == aln;
  }

  /** The alignment filter of `parse_bam_for_falign` for one record: a
      record under the MAPQ threshold is skipped, a missing `NM` tag or a zero
      alignment length stops the run, and a record under the identity or
      length threshold is skipped. */
  method ScreenRecord(aln: Alignment, cfg: Thresholds) returns (v: Verdict)
    ensures v == Screen(aln, cfg)
  {
    if aln.mapq < cfg.mapq {
      return Drop;
    }
    if aln.nm.None? {
      return Abort(MissingNmTag);
    }
    if aln.queryAlignmentLength == 0 {
      return Abort(ZeroAlignmentLength);
    }
    if PercentIdentity(aln.nm.value, aln.queryAlignmentLength) < cfg.percentIdentity {
      return Drop;
    }
    if aln.queryAlignmentLength < cfg.alignmentLength {
      return Drop;
    }
    return Keep;
  }

  /** `parse_bam_for_falign`: screens every record, appends a kept record to
      the buffer while the read name stays the same, flushes the buffer when it
      changes, and flushes once more at the end using the last record the
      source yielded. It returns what was written and how the run ended. */
  method ParseBamForFalign(source: seq<Alignment>, cfg: Thresholds)
    returns (sink: seq<Alignment>, err: Option<EngineError>)
    ensures FirstAbort(source, cfg).Some? ==>
      var f := FirstAbort(source, cfg).value;
      && err == Some(Screen(source[f], cfg).error)
      && sink == PairsOf(Closed(Groups(Kept(source[..f], cfg))), cfg.mapq)
    ensures FirstAbort(source, cfg).None? && source == [] ==> err == Some(EmptySource) && sink == []
    ensures FirstAbort(source, cfg).None? && source != [] ==> err == None && sink == Output(source, cfg)
  {
    sink := [];
    var currentAlnList: seq<Alignment> := [];
    var currentRead: Option<string> := None;
    assert source[..0] == [];
    for i := 0 to |source|
      invariant forall j :: 0 <= j < i ==> !Screen(source[j], cfg).Abort?
      invariant LoopState(source, i, cfg, currentAlnList, currentRead, sink)
    {
      var aln := source[i];
      ghost var k := Kept(source[..i], cfg);
      KeptSnoc(source, i, cfg);
      var verdict := ScreenRecord(aln, cfg);
      if verdict.Abort? {
        FirstAbortAt(source, i, cfg);
        err := Some(verdict.error);
        return;
      }
      NoAbortExtends(source, i, cfg);
      if verdict == Drop {
        assert Kept(source[..i + 1], cfg) == k;
        continue;
      }
      assert Kept(source[..i + 1], cfg) == k + [aln];
      currentAlnList, currentRead, sink := TakeRecord(k, aln, currentAlnList, currentRead, sink, cfg.mapq);
    }
    assert source[..|source|] == source;
    if |source| == 0 {
      err := Some(EmptySource);
      return;
    }
    var emitted, _, _ := FlushGroup(currentAlnList, source[|source| - 1], cfg.mapq);
    sink := sink + emitted;
    err := None;
    PairsOfSplit(Groups(Kept(source, cfg)), cfg.mapq);
  }
}
