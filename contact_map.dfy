/**
  The Hi-C contact map of the plotting script: scaffolds ("groups") described
  by an AGP file are cut into fixed-size bins, every bin is mapped back to a
  range on its raw contig, scaffolds long enough to draw get consecutive
  global bin numbers, and every read-1 record whose two ends resolve to bins
  adds one contact to the matrix, which is finally made symmetric by adding
  its transpose.
*/
module ContactMap {
  import opened Outcomes
  import opened Text
  import opened Dicts

  // ---------------------------------------------------------------------------
  // Closed integer intervals (`portion.closed`)

  /** The closed interval `[lo, hi]`; it holds nothing when `lo > hi`. */
  datatype Interval = Interval(lo: int, hi: int)

  predicate Contains(r: Interval, p: int) {
    r.lo <= p <= r.hi
  }

  /** `a & b`, or `None` when the two intervals share no point. */
  function Intersect(a: Interval, b: Interval): Option<Interval> {
    var lo := if a.lo < b.lo then b.lo else a.lo;
    var hi := if a.hi < b.hi then a.hi else b.hi;
    if lo <= hi then Some(Interval(lo, hi)) else None
  }

  /** The intersection holds exactly the common positions, and it is absent
      exactly when there are none. */
  lemma IntersectMeaning(a: Interval, b: Interval)
    ensures forall p :: Contains(a, p) && Contains(b, p) <==>
      Intersect(a, b).Some? && Contains(Intersect(a, b).value, p)
    ensures Intersect(a, b).Some? ==> Intersect(a, b).value.lo <= Intersect(a, b).value.hi
  {
  }

  // ---------------------------------------------------------------------------
  // AGP component lines

  /** A scaffold bin: the scaffold's name and the bin's number within it. */
  datatype BinTarget = BinTarget(group: string, bin: int)

  /** A contig piece placed in a scaffold: `(component_id, component_beg, component_end)`. */
  datatype Fragment = Fragment(contig: string, rawStart: int, rawEnd: int)

  /** The columns of a `W` line the script uses. `orientation` is absent when
      the line has only eight columns. */
  datatype Component = Component(
    group: string, groupStart: int, groupEnd: int,
    contig: string, rawStart: int, rawEnd: int,
    orientation: Option<string>)

  datatype AgpRow = Ignored | W(c: Component)

  /** Why reading the AGP file aborts; `line` is the 0-based line number. */
  datatype AgpError =
    | Malformed(line: nat)             // a missing column or a column that is not an integer
    | EmptyBinIntersection(line: nat)  // a bin that shares no position with its scaffold range
    | BadOrientation(line: nat)        // an orientation other than `+` or `-`

  /** One line of the AGP file: comment and blank lines are ignored, and so is
      any component that is not `W`. */
  function ReadAgpLine(line: string, no: nat): (r: Result<AgpRow, AgpError>)
    ensures StartsWith(line, "#") || IsBlank(line) ==> r == Ok(Ignored)
    ensures r.Ok? && r.value.W? ==>
      var cols := Split(line);
      && |cols| >= 8 && cols[4] == "W"
      && r.value.c.group == cols[0] && r.value.c.contig == cols[5]
      && Some(r.value.c.groupStart) == ParseInt(cols[1]) && Some(r.value.c.groupEnd) == ParseInt(cols[2])
      && Some(r.value.c.rawStart) == ParseInt(cols[6]) && Some(r.value.c.rawEnd) == ParseInt(cols[7])
      && r.value.c.orientation == (if |cols| >= 9 then Some(cols[8]) else None)
    ensures r.Err? ==> r.error == Malformed(no)
    ensures !StartsWith(line, "#") && !IsBlank(line) ==>
      var cols := Split(line);
      && (|cols| < 5 ==> r.Err?)
      && (|cols| >= 5 && cols[4] != "W" ==> r == Ok(Ignored))
      && (|cols| >= 5 && cols[4] == "W" ==>
            && (r.Ok? <==> |cols| >= 8 && ParseInt(cols[1]).Some? && ParseInt(cols[2]).Some?
                           && ParseInt(cols[6]).Some? && ParseInt(cols[7]).Some?)
            && (r.Ok? ==> r.value.W?))
  {
    if StartsWith(line, "#") || IsBlank(line) then Ok(Ignored)
    else
      var cols := Split(line);
      if |cols| < 5 then Err(Malformed(no))
      else if cols[4] != "W" then Ok(Ignored)
      else if |cols| < 8 then Err(Malformed(no))
      else match (ParseInt(cols[1]), ParseInt(cols[2]), ParseInt(cols[6]), ParseInt(cols[7]))
        case (Some(gs), Some(ge), Some(rs), Some(re)) =>
          Ok(W(Component(cols[0], gs, ge, cols[5], rs, re, if |cols| >= 9 then Some(cols[8]) else None)))
        case _ => Err(Malformed(no))
  }

  // ---------------------------------------------------------------------------
  // Bins of a component

  function FirstBin(c: Component, bs: nat): int
    requires bs > 0
  {
    (c.groupStart - 1) / bs
  }

  function LastBin(c: Component, bs: nat): int
    requires bs > 0
  {
    (c.groupEnd - 1) / bs
  }

  /** The scaffold positions of bin `b`: `[b * bs + 1, (b + 1) * bs]`. */
  function BinSpan(b: int, bs: nat): Interval {
    Interval(b * bs + 1, (b + 1) * bs)
  }

  /** The bins the loop visits, `FirstBin..LastBin`, are exactly the bins that
      share a position with a non-empty scaffold range. */
  lemma BinsOverlappingRange(gs: int, ge: int, bs: nat, b: int)
    requires bs > 0 && gs <= ge
    ensures (gs - 1) / bs <= b <= (ge - 1) / bs <==> Intersect(BinSpan(b, bs), Interval(gs, ge)).Some?
  {
    var q1, q2 := (gs - 1) / bs, (ge - 1) / bs;
    if q1 <= b <= q2 {
      BinInsideRange(gs, ge, bs, b);
    } else if b < q1 {
      assert (b + 1) * bs <= q1 * bs by { MultiplyMonotone(b + 1, q1, bs); }
    } else {
      assert (q2 + 1) * bs <= b * bs by { MultiplyMonotone(q2 + 1, b, bs); }
    }
  }

  /** A bin between the first and the last bin of a range meets the range. */
  lemma BinInsideRange(gs: int, ge: int, bs: nat, b: int)
    requires bs > 0 && gs <= ge && (gs - 1) / bs <= b <= (ge - 1) / bs
    ensures Intersect(BinSpan(b, bs), Interval(gs, ge)).Some?
  {
    var q1, q2 := (gs - 1) / bs, (ge - 1) / bs;
    QuotientBounds(gs - 1, bs);
    QuotientBounds(ge - 1, bs);
    assert b * bs <= q2 * bs by { MultiplyMonotone(b, q2, bs); }
    assert (q1 + 1) * bs <= (b + 1) * bs by { MultiplyMonotone(q1 + 1, b + 1, bs); }
    assert (b + 1) * bs == b * bs + bs;
  }

  lemma QuotientBounds(x: int, bs: nat)
    requires bs > 0
    ensures (x / bs) * bs <= x < (x / bs + 1) * bs
  {
    assert x == (x / bs) * bs + x % bs;
    assert (x / bs + 1) * bs == (x / bs) * bs + bs;
  }

  lemma MultiplyMonotone(x: int, y: int, bs: nat)
    requires x <= y
    ensures x * bs <= y * bs
  {
    assert y * bs - x * bs == (y - x) * bs;
  }

  /** The raw-contig range of bin `b` of component `c`: the part of the bin
      inside the scaffold range, shifted onto the contig for `+` and mirrored
      against the contig end for `-`. Column 8 is read before the part of the
      bin is used, so a missing or unknown orientation is reported first. */
  function RawRange(c: Component, b: int, bs: nat, no: nat): Result<Interval, AgpError>
    requires bs > 0
  {
    if c.orientation.None? then Err(Malformed(no))
    else if c.orientation.value != "+" && c.orientation.value != "-" then Err(BadOrientation(no))
    else match Intersect(BinSpan(b, bs), Interval(c.groupStart, c.groupEnd))
      case None => Err(EmptyBinIntersection(no))
      case Some(i) =>
        if c.orientation.value == "+" then
          Ok(Interval(i.lo - c.groupStart + c.rawStart, i.hi - c.groupStart + c.rawStart))
        else
          Ok(Interval(c.rawEnd - (i.hi - c.groupStart), c.rawEnd - (i.lo - c.groupStart)))
  }

  /** What the raw range of a bin is: the error cases in the order the source
      meets them (missing column 8, an orientation other than `+` or `-`, then
      a bin outside the scaffold range), and for `+` and `-` a range of the
      same length as the part of the bin inside the scaffold, whose positions
      correspond one to one with the scaffold positions, shifted (`+`) or
      mirrored (`-`). */
  lemma RawRangeMeaning(c: Component, b: int, bs: nat, no: nat)
    requires bs > 0
    ensures var i := Intersect(BinSpan(b, bs), Interval(c.groupStart, c.groupEnd));
      var r := RawRange(c, b, bs, no);
      var known := c.orientation == Some("+") || c.orientation == Some("-");
      && (r == Err(Malformed(no)) <==> c.orientation.None?)
      && (r == Err(BadOrientation(no)) <==> c.orientation.Some? && !known)
      && (r == Err(EmptyBinIntersection(no)) <==> known && i.None?)
      && (r.Ok? <==> known && i.Some?)
      && (r.Ok? ==> r.value.hi - r.value.lo == i.value.hi - i.value.lo)
      && (r.Ok? && c.orientation == Some("+") ==>
            forall p :: Contains(i.value, p) <==> Contains(r.value, p - c.groupStart + c.rawStart))
      && (r.Ok? && c.orientation == Some("-") ==>
            forall p :: Contains(i.value, p) <==> Contains(r.value, c.rawEnd - (p - c.groupStart)))
  {
  }

  /** A component whose scaffold range is not empty never meets an empty bin. */
  lemma WellFormedBinsIntersect(c: Component, bs: nat, no: nat, b: int)
    requires bs > 0 && c.groupStart <= c.groupEnd
    requires FirstBin(c, bs) <= b <= LastBin(c, bs)
    ensures RawRange(c, b, bs, no) != Err(EmptyBinIntersection(no))
  {
    BinsOverlappingRange(c.groupStart, c.groupEnd, bs, b);
    RawRangeMeaning(c, b, bs, no);
  }

  // ---------------------------------------------------------------------------
  // parse_agp

  type RangeTable = map<string, Dict<Interval, BinTarget>>

  /** What the AGP file is read into: per contig, its raw ranges in insertion
      order with the scaffold bin each belongs to; per scaffold, its size;
      the set of fragments; and per scaffold, its fragments. */
  datatype Tables = Tables(
    ctgDict: RangeTable,
    groupSize: Dict<string, int>,
    frags: set<Fragment>,
    groupFrags: map<string, set<Fragment>>)

  /** `ctg_dict[ctg]` of a `defaultdict(dict)`. */
  function RangesOf(m: RangeTable, ctg: string): Dict<Interval, BinTarget> {
    if ctg in m then m[ctg] else []
  }

  /** `group_frag_dict[group]` of a `defaultdict(set)`. */
  function FragsOf(gf: map<string, set<Fragment>>, g: string): set<Fragment> {
    if g in gf then gf[g] else {}
  }

  /** The range table after the bins `FirstBin(c)..upto - 1` of `c` are entered. */
  function PutBins(m: RangeTable, c: Component, bs: nat, no: nat, upto: int): Result<RangeTable, AgpError>
    requires bs > 0
    decreases upto - FirstBin(c, bs)
  {
    if upto <= FirstBin(c, bs) then Ok(m)
    else
      var m' :- PutBins(m, c, bs, no, upto - 1);
      var raw :- RawRange(c, upto - 1, bs, no);
      Ok(Enter(m', c, raw, upto - 1))
  }

  /** `ctg_dict[ctg][raw] = (group, bin)`. */
  function Enter(m: RangeTable, c: Component, raw: Interval, b: int): RangeTable {
    m[c.contig := Put(RangesOf(m, c.contig), raw, BinTarget(c.group, b))]
  }

  function ApplyRow(t: Tables, row: AgpRow, bs: nat, no: nat): Result<Tables, AgpError>
    requires bs > 0
  {
    match row
    case Ignored => Ok(t)
    case W(c) =>
      var frag := Fragment(c.contig, c.rawStart, c.rawEnd);
      var m :- PutBins(t.ctgDict, c, bs, no, LastBin(c, bs) + 1);
      Ok(Tables(m, Put(t.groupSize, c.group, c.groupEnd), t.frags + {frag},
                t.groupFrags[c.group := FragsOf(t.groupFrags, c.group) + {frag}]))
  }

  /** The tables built from the first lines of the file, or the first error. */
  function ParseAgp(lines: seq<string>, bs: nat): Result<Tables, AgpError>
    requires bs > 0
  {
    if lines == [] then Ok(Tables(map[], [], {}, map[]))
    else
      var no := |lines| - 1;
      var t :- ParseAgp(lines[..no], bs);
      var row :- ReadAgpLine(lines[no], no);
      ApplyRow(t, row, bs, no)
  }

  /** A failing prefix makes the whole file fail with the same error. */
  lemma {:induction false} ParseAgpErrorSticks(lines: seq<string>, n: nat, bs: nat)
    requires bs > 0 && n <= |lines| && ParseAgp(lines[..n], bs).Err?
    ensures ParseAgp(lines, bs) == ParseAgp(lines[..n], bs)
    decreases |lines|
  {
    if n < |lines| {
      var front := lines[..|lines| - 1];
      assert front[..n] == lines[..n];
      ParseAgpErrorSticks(front, n, bs);
    } else {
      assert lines[..n] == lines;
    }
  }

  /** Entering one more bin whose raw range exists. */
  lemma PutBinsStep(m0: RangeTable, c: Component, bs: nat, no: nat, b: int, m: RangeTable)
    requires bs > 0 && FirstBin(c, bs) <= b
    requires PutBins(m0, c, bs, no, b) == Ok(m) && RawRange(c, b, bs, no).Ok?
    ensures PutBins(m0, c, bs, no, b + 1) == Ok(Enter(m, c, RawRange(c, b, bs, no).value, b))
  {
  }

  /** A scaffold range that starts after it ends touches no bin. */
  lemma PutBinsNone(m: RangeTable, c: Component, bs: nat, no: nat, upto: int)
    requires bs > 0 && upto <= FirstBin(c, bs)
    ensures PutBins(m, c, bs, no, upto) == Ok(m)
  {
  }

  /** A failing bin makes the whole component fail with that bin's error. */
  lemma PutBinsErrorSticks(m: RangeTable, c: Component, bs: nat, no: nat, b: int, upto: int)
    requires bs > 0 && FirstBin(c, bs) <= b < upto
    requires PutBins(m, c, bs, no, b).Ok? && RawRange(c, b, bs, no).Err?
    ensures PutBins(m, c, bs, no, upto) == Err(RawRange(c, b, bs, no).error)
  {
    PutBinsFailsAt(m, c, bs, no, b);
    PutBinsErrorStays(m, c, bs, no, b + 1, upto);
  }

  lemma {:induction false} PutBinsErrorStays(m: RangeTable, c: Component, bs: nat, no: nat, e: int, upto: int)
    requires bs > 0 && FirstBin(c, bs) < e <= upto && PutBins(m, c, bs, no, e).Err?
    ensures PutBins(m, c, bs, no, upto) == PutBins(m, c, bs, no, e)
    decreases upto - e
  {
    if upto > e {
      PutBinsErrorStays(m, c, bs, no, e, upto - 1);
      PutBinsErrorNext(m, c, bs, no, upto);
    }
  }

  lemma PutBinsFailsAt(m: RangeTable, c: Component, bs: nat, no: nat, b: int)
    requires bs > 0 && FirstBin(c, bs) <= b
    requires PutBins(m, c, bs, no, b).Ok? && RawRange(c, b, bs, no).Err?
    ensures PutBins(m, c, bs, no, b + 1) == Err(RawRange(c, b, bs, no).error)
  {
  }

  lemma PutBinsErrorNext(m: RangeTable, c: Component, bs: nat, no: nat, upto: int)
    requires bs > 0 && FirstBin(c, bs) < upto && PutBins(m, c, bs, no, upto - 1).Err?
    ensures PutBins(m, c, bs, no, upto) == PutBins(m, c, bs, no, upto - 1)
  {
  }

  /** The bin loop of `parse_agp` for one `W` line: for every bin the
      scaffold range touches, the part of the bin inside the range is carried
      over to the raw contig and recorded under the contig. */
  method AddComponentBins(ctgDict0: RangeTable, c: Component, bs: nat, no: nat)
    returns (r: Result<RangeTable, AgpError>)
    requires bs > 0
    ensures r == PutBins(ctgDict0, c, bs, no, LastBin(c, bs) + 1)
  {
    var ctgDict := ctgDict0;
    var firstBin, lastBin := FirstBin(c, bs), LastBin(c, bs);
    if lastBin < firstBin {
      PutBinsNone(ctgDict0, c, bs, no, lastBin + 1);
      return Ok(ctgDict);
    }
    for groupBin := firstBin to lastBin + 1
      invariant PutBins(ctgDict0, c, bs, no, groupBin) == Ok(ctgDict)
    {
      var ctgRawBinRange := RawRange(c, groupBin, bs, no);
      if ctgRawBinRange.Err? {
        PutBinsErrorSticks(ctgDict0, c, bs, no, groupBin, lastBin + 1);
        return Err(ctgRawBinRange.error);
      }
      PutBinsStep(ctgDict0, c, bs, no, groupBin, ctgDict);
      ctgDict := Enter(ctgDict, c, ctgRawBinRange.value, groupBin);
    }
    return Ok(ctgDict);
  }

  /** `parse_agp`: reads the AGP lines in order. For a `W` line it records the
      scaffold's size, the fragment, and one raw-contig range for every bin
      the scaffold range touches. */
  method ParseAgpLines(lines: seq<string>, bs: nat) returns (r: Result<Tables, AgpError>)
    requires bs > 0
    ensures r == ParseAgp(lines, bs)
  {
    var ctgDict: RangeTable := map[];
    var groupSize: Dict<string, int> := [];
    var fragSet: set<Fragment> := {};
    var groupFragDict: map<string, set<Fragment>> := map[];
    for no := 0 to |lines|
      invariant ParseAgp(lines[..no], bs) == Ok(Tables(ctgDict, groupSize, fragSet, groupFragDict))
    {
      ParseAgpNext(lines, no, bs);
      var row := ReadAgpLine(lines[no], no);
      if row.Err? {
        ParseAgpErrorSticks(lines, no + 1, bs);
        return Err(row.error);
      }
      if row.value.Ignored? {
        continue;
      }
      var next := AddComponent(Tables(ctgDict, groupSize, fragSet, groupFragDict), row.value.c, bs, no);
      if next.Err? {
        ParseAgpErrorSticks(lines, no + 1, bs);
        return Err(next.error);
      }
      ctgDict, groupSize, fragSet, groupFragDict :=
        next.value.ctgDict, next.value.groupSize, next.value.frags, next.value.groupFrags;
    }
    assert lines[..|lines|] == lines;
    r := Ok(Tables(ctgDict, groupSize, fragSet, groupFragDict));
  }

  /** Reading one more line applies that line to the tables of the lines before it. */
  lemma ParseAgpNext(lines: seq<string>, no: nat, bs: nat)
    requires bs > 0 && no < |lines|
    ensures ParseAgp(lines[..no + 1], bs) ==
      var t :- ParseAgp(lines[..no], bs);
      var row :- ReadAgpLine(lines[no], no);
      ApplyRow(t, row, bs, no)
  {
    assert lines[..no + 1][..no] == lines[..no] && lines[..no + 1][no] == lines[no];
  }

  /** The body of `parse_agp` for one `W` line: the scaffold's size is
      updated, the fragment is recorded in the fragment set and under its
      scaffold, and the bins the scaffold range touches are entered. */
  method AddComponent(t: Tables, c: Component, bs: nat, no: nat) returns (r: Result<Tables, AgpError>)
    requires bs > 0
    ensures r == ApplyRow(t, W(c), bs, no)
  {
    var groupSize := Put(t.groupSize, c.group, c.groupEnd);
    var fragId := Fragment(c.contig, c.rawStart, c.rawEnd);
    var fragSet := t.frags + {fragId};
    var groupFragDict := t.groupFrags[c.group := FragsOf(t.groupFrags, c.group) + {fragId}];
    var bins := AddComponentBins(t.ctgDict, c, bs, no);
    if bins.Err? {
      return Err(bins.error);
    }
    return Ok(Tables(bins.value, groupSize, fragSet, groupFragDict));
  }

  /** The object end of the last `W` line of scaffold `g`, if there is one. */
  function LastEnd(lines: seq<string>, g: string): Option<int> {
    if lines == [] then None
    else
      var no := |lines| - 1;
      match ReadAgpLine(lines[no], no)
      case Ok(W(c)) => if c.group == g then Some(c.groupEnd) else LastEnd(lines[..no], g)
      case _ => LastEnd(lines[..no], g)
  }

  /** A scaffold's recorded size is the object end of its last `W` line, and
      every scaffold is recorded once; `ParseAgpGroupOrder` gives their order. */
  lemma {:induction false} ParseAgpGroupSizes(lines: seq<string>, bs: nat)
    requires bs > 0 && ParseAgp(lines, bs).Ok?
    ensures UniqueKeys(ParseAgp(lines, bs).value.groupSize)
    ensures forall g :: Get(ParseAgp(lines, bs).value.groupSize, g) == LastEnd(lines, g)
  {
    if lines != [] {
      var no := |lines| - 1;
      ParseAgpGroupSizes(lines[..no], bs);
    }
  }

  /** Line `k` is a `W` line of scaffold `g`. */
  predicate IsWOf(lines: seq<string>, k: nat, g: string)
    requires k < |lines|
  {
    match ReadAgpLine(lines[k], k)
    case Ok(W(c)) => c.group == g
    case _ => false
  }

  /** The index of the first `W` line of scaffold `g`, if any. */
  function FirstW(lines: seq<string>, g: string): (r: Option<nat>)
    ensures r.Some? ==> r.value < |lines| && IsWOf(lines, r.value, g)
    ensures r.Some? ==> forall k :: 0 <= k < r.value ==> !IsWOf(lines, k, g)
    ensures r.None? ==> forall k :: 0 <= k < |lines| ==> !IsWOf(lines, k, g)
  {
    if lines == [] then None
    else
      var no := |lines| - 1;
      var f := FirstW(lines[..no], g);
      assert forall k :: 0 <= k < no ==> IsWOf(lines[..no], k, g) == IsWOf(lines, k, g) by {
        forall k | 0 <= k < no ensures IsWOf(lines[..no], k, g) == IsWOf(lines, k, g) {
          assert lines[..no][k] == lines[k];
        }
      }
      if f.Some? then f
      else if IsWOf(lines, no, g) then Some(no)
      else None
  }

  /** The scaffolds `ks` are those with a `W` line, ordered by their first one. */
  ghost predicate InFirstWOrder(lines: seq<string>, ks: seq<string>) {
    && (forall g :: g in ks <==> FirstW(lines, g).Some?)
    && (forall i, j :: 0 <= i < j < |ks| ==>
          FirstW(lines, ks[i]).Some? && FirstW(lines, ks[j]).Some?
          && FirstW(lines, ks[i]).value < FirstW(lines, ks[j]).value)
  }

  lemma FirstWSnoc(lines: seq<string>, g: string)
    requires lines != []
    ensures var no := |lines| - 1;
      FirstW(lines, g) ==
        if FirstW(lines[..no], g).Some? then FirstW(lines[..no], g)
        else if IsWOf(lines, no, g) then Some(no) else None
  {
  }

  /** The scaffold sizes are listed in order of each scaffold's first `W`
      line: reassigning the size of a scaffold seen before keeps its place.
      This is the order in which `generate_contact_matrix` numbers the bins. */
  lemma {:induction false} ParseAgpGroupOrder(lines: seq<string>, bs: nat)
    requires bs > 0 && ParseAgp(lines, bs).Ok?
    ensures InFirstWOrder(lines, Keys(ParseAgp(lines, bs).value.groupSize))
  {
    if lines != [] {
      var no := |lines| - 1;
      var front := lines[..no];
      ParseAgpGroupOrder(front, bs);
      var gs := ParseAgp(front, bs).value.groupSize;
      var row := ReadAgpLine(lines[no], no).value;
      if row.W? {
        PutKeys(gs, row.c.group, row.c.groupEnd);
      }
      GroupOrderStep(lines, row, Keys(gs), Keys(ParseAgp(lines, bs).value.groupSize));
    }
  }

  /** One more line keeps the scaffolds in order of their first `W` line: a
      new scaffold goes last, and a scaffold seen before keeps its place. */
  lemma GroupOrderStep(lines: seq<string>, row: AgpRow, ks: seq<string>, ks': seq<string>)
    requires lines != [] && ReadAgpLine(lines[|lines| - 1], |lines| - 1) == Ok(row)
    requires InFirstWOrder(lines[..|lines| - 1], ks)
    requires row.W? && row.c.group in ks ==> ks' == ks
    requires row.W? && row.c.group !in ks ==> ks' == ks + [row.c.group]
    requires !row.W? ==> ks' == ks
    ensures InFirstWOrder(lines, ks')
  {
    forall g ensures FirstW(lines, g) ==
      if FirstW(lines[..|lines| - 1], g).Some? then FirstW(lines[..|lines| - 1], g)
      else if IsWOf(lines, |lines| - 1, g) then Some(|lines| - 1) else None {
      FirstWSnoc(lines, g);
    }
  }

  // ---------------------------------------------------------------------------
  // generate_contact_matrix

  /** Why building or filling the matrix aborts. */
  datatype PlotError =
    | MissingBin(target: BinTarget)  // `group_to_total_bin_dict[group_and_bin]` raises KeyError
    | NegativeDimension(total: int)  // `np.zeros` refuses a negative size

  /** `size // bin_size + 1`: the number of bins of a kept scaffold. */
  function GroupBins(size: int, bs: nat): int
    requires bs > 0
  {
    size / bs + 1
  }

  /** `total_n_bins` after the scaffolds of `gsd`. */
  function RunningTotal(gsd: Dict<string, int>, bs: nat, minLen: int): int
    requires bs > 0
  {
    if gsd == [] then 0
    else
      var (g, size) := gsd[|gsd| - 1];
      RunningTotal(gsd[..|gsd| - 1], bs, minLen) + (if size >= minLen then GroupBins(size, bs) else 0)
  }

  /** The bins of one kept scaffold, numbered from `base`. */
  function ScaffoldBins(g: string, count: int, base: int): (m: map<BinTarget, int>)
    ensures forall t :: t in m <==> t.group == g && 0 <= t.bin < count
    ensures forall t :: t in m ==> m[t] == base + t.bin
    decreases count
  {
    if count <= 0 then map[]
    else ScaffoldBins(g, count - 1, base)[BinTarget(g, count - 1) := base + count - 1]
  }

  /** `group_to_total_bin_dict`. */
  function BinNumbering(gsd: Dict<string, int>, bs: nat, minLen: int): map<BinTarget, int>
    requires bs > 0
  {
    if gsd == [] then map[]
    else
      var front := gsd[..|gsd| - 1];
      var (g, size) := gsd[|gsd| - 1];
      if size >= minLen then BinNumbering(front, bs, minLen) + ScaffoldBins(g, GroupBins(size, bs), RunningTotal(front, bs, minLen))
      else BinNumbering(front, bs, minLen)
  }

  /** `group_list`: the kept scaffolds in order. */
  function KeptGroups(gsd: Dict<string, int>, minLen: int): (r: seq<string>)
    ensures forall g :: g in r <==> exists i :: 0 <= i < |gsd| && gsd[i].0 == g && gsd[i].1 >= minLen
  {
    if gsd == [] then []
    else
      var front := gsd[..|gsd| - 1];
      var (g, size) := gsd[|gsd| - 1];
      var r := KeptGroups(front, minLen) + (if size >= minLen then [g] else []);
      assert forall i :: 0 <= i < |front| ==> front[i] == gsd[i];
      r
  }

  /** The fragments of the scaffolds that are too short. */
  function DroppedFrags(gsd: Dict<string, int>, gf: map<string, set<Fragment>>, minLen: int): set<Fragment> {
    if gsd == [] then {}
    else
      var (g, size) := gsd[|gsd| - 1];
      DroppedFrags(gsd[..|gsd| - 1], gf, minLen) + (if size >= minLen then {} else FragsOf(gf, g))
  }

  function Contigs(frags: set<Fragment>): set<string> {
    set f | f in frags :: f.contig
  }

  /** The last loop of `generate_contact_matrix`: the contigs of the remaining fragments. */
  method ContigSet(fragSet: set<Fragment>) returns (ctgSet: set<string>)
    ensures ctgSet == Contigs(fragSet)
  {
    ctgSet := {};
    var rest := fragSet;
    while rest != {}
      invariant rest <= fragSet
      invariant ctgSet == Contigs(fragSet - rest)
      decreases |rest|
    {
      var f :| f in rest;
      ctgSet := ctgSet + {f.contig};
      rest := rest - {f};
    }
    assert fragSet - rest == fragSet;
  }

  /** The inner loop of `generate_contact_matrix`: bins `0..count - 1` of
      scaffold `g` get the global numbers `base..base + count - 1`. */
  method NumberBins(binOf0: map<BinTarget, int>, g: string, count: int, base: int)
    returns (binOf: map<BinTarget, int>)
    ensures binOf == binOf0 + ScaffoldBins(g, count, base)
  {
    binOf := binOf0;
    for n := 0 to if count < 0 then 0 else count
      invariant binOf == binOf0 + ScaffoldBins(g, n, base)
    {
      binOf := binOf[BinTarget(g, n) := base + n];
    }
  }

  /** `generate_contact_matrix`: keeps the scaffolds of at least `minLen`
      megabases and numbers their bins consecutively in scaffold order, drops
      the fragments of the other scaffolds, collects the contigs of the
      remaining fragments, and allocates a zero square matrix with one row per
      global bin. */
  method GenerateContactMatrix(groupSize: Dict<string, int>, frags: set<Fragment>,
                               groupFrags: map<string, set<Fragment>>, bs: nat, minLen: int)
    returns (matrix: array2<int>, binOf: map<BinTarget, int>, groupList: seq<string>,
             ctgSet: set<string>, err: Option<PlotError>)
    requires bs > 0
    ensures var threshold := minLen * 1000000;
      && binOf == BinNumbering(groupSize, bs, threshold)
      && groupList == KeptGroups(groupSize, threshold)
      && ctgSet == Contigs(frags - DroppedFrags(groupSize, groupFrags, threshold))
      && (err.None? <==> RunningTotal(groupSize, bs, threshold) >= 0)
      && (err.Some? ==> err.value == NegativeDimension(RunningTotal(groupSize, bs, threshold)))
      && (err.None? ==>
            && matrix.Length0 == matrix.Length1 == RunningTotal(groupSize, bs, threshold)
            && forall i, j :: 0 <= i < matrix.Length0 && 0 <= j < matrix.Length1 ==> matrix[i, j] == 0)
    ensures fresh(matrix)
  {
    var totalNBins := 0;
    var threshold := minLen * 1000000;
    binOf := map[];
    groupList := [];
    var fragSet := frags;
    for k := 0 to |groupSize|
      invariant totalNBins == RunningTotal(groupSize[..k], bs, threshold)
      invariant binOf == BinNumbering(groupSize[..k], bs, threshold)
      invariant groupList == KeptGroups(groupSize[..k], threshold)
      invariant fragSet == frags - DroppedFrags(groupSize[..k], groupFrags, threshold)
    {
      assert groupSize[..k + 1][..k] == groupSize[..k];
      var (group, size) := groupSize[k];
      if size >= threshold {
        var groupNBins := size / bs + 1;
        binOf := NumberBins(binOf, group, groupNBins, totalNBins);
        totalNBins := totalNBins + groupNBins;
        groupList := groupList + [group];
      } else {
        fragSet := fragSet - FragsOf(groupFrags, group);
      }
    }
    assert groupSize[..|groupSize|] == groupSize;
    if totalNBins < 0 {
      matrix := new int[0, 0];
      err := Some(NegativeDimension(totalNBins));
    } else {
      matrix := new int[totalNBins, totalNBins]((i, j) => 0);
      err := None;
    }
    ctgSet := ContigSet(fragSet);
  }

  /** Bin `n` of the `i`-th scaffold, if that scaffold is kept, gets global
      number `RunningTotal(before it) + n`: the kept scaffolds' bins are
      numbered consecutively, in scaffold order. */
  lemma {:induction false} BinNumberingAt(gsd: Dict<string, int>, bs: nat, minLen: int, i: nat, n: int)
    requires bs > 0 && UniqueKeys(gsd)
    requires i < |gsd| && gsd[i].1 >= minLen && 0 <= n < GroupBins(gsd[i].1, bs)
    ensures BinTarget(gsd[i].0, n) in BinNumbering(gsd, bs, minLen)
    ensures BinNumbering(gsd, bs, minLen)[BinTarget(gsd[i].0, n)] == RunningTotal(gsd[..i], bs, minLen) + n
  {
    var front := gsd[..|gsd| - 1];
    if i < |gsd| - 1 {
      assert front[i] == gsd[i] && front[..i] == gsd[..i];
      BinNumberingAt(front, bs, minLen, i, n);
      assert gsd[|gsd| - 1].0 != gsd[i].0;
    } else {
      assert front == gsd[..i];
    }
  }

  /** A scaffold shorter than the threshold gets no bins. */
  lemma {:induction false} DroppedGroupHasNoBins(gsd: Dict<string, int>, bs: nat, minLen: int, i: nat, n: int)
    requires bs > 0 && UniqueKeys(gsd)
    requires i < |gsd| && gsd[i].1 < minLen
    ensures BinTarget(gsd[i].0, n) !in BinNumbering(gsd, bs, minLen)
  {
    var front := gsd[..|gsd| - 1];
    if i < |gsd| - 1 {
      assert front[i] == gsd[i];
      DroppedGroupHasNoBins(front, bs, minLen, i, n);
      assert gsd[|gsd| - 1].0 != gsd[i].0;
    } else {
      NoBinsForAbsentGroup(front, bs, minLen, gsd[i].0, n);
    }
  }

  lemma {:induction false} NoBinsForAbsentGroup(gsd: Dict<string, int>, bs: nat, minLen: int, g: string, n: int)
    requires bs > 0 && forall i :: 0 <= i < |gsd| ==> gsd[i].0 != g
    ensures BinTarget(g, n) !in BinNumbering(gsd, bs, minLen)
  {
    if gsd != [] {
      NoBinsForAbsentGroup(gsd[..|gsd| - 1], bs, minLen, g, n);
    }
  }

  /** With a non-negative minimum length every global bin number is a valid
      row of the matrix. */
  lemma {:induction false} BinNumbersBelowTotal(gsd: Dict<string, int>, bs: nat, minLen: int)
    requires bs > 0 && minLen >= 0
    ensures RunningTotal(gsd, bs, minLen) >= 0
    ensures forall t :: t in BinNumbering(gsd, bs, minLen) ==>
      0 <= BinNumbering(gsd, bs, minLen)[t] < RunningTotal(gsd, bs, minLen)
  {
    if gsd != [] {
      var front := gsd[..|gsd| - 1];
      BinNumbersBelowTotal(front, bs, minLen);
      var (g, size) := gsd[|gsd| - 1];
      if size >= minLen {
        assert size / bs >= 0;
      }
    }
  }

  // ---------------------------------------------------------------------------
  // parse_bam and convert_group_bin_id

  /** The position where the scan of `convert_group_bin_id` stops: the first
      range whose scaffold is not kept or that contains `pos`, or the end. */
  function ScanStop(ranges: Dict<Interval, BinTarget>, groupList: seq<string>, pos: int): (f: nat)
    ensures f <= |ranges|
    ensures forall j :: 0 <= j < f ==> ranges[j].1.group in groupList && !Contains(ranges[j].0, pos)
    ensures f < |ranges| ==> ranges[f].1.group !in groupList || Contains(ranges[f].0, pos)
  {
    if ranges == [] then 0
    else if ranges[0].1.group !in groupList || Contains(ranges[0].0, pos) then 0
    else 1 + ScanStop(ranges[1..], groupList, pos)
  }

  /** `convert_group_bin_id(ctg, pos)` over the contig's ranges, in insertion order. */
  function ResolveBin(ranges: Dict<Interval, BinTarget>, groupList: seq<string>,
                      binOf: map<BinTarget, int>, pos: int): Result<Option<int>, PlotError>
  {
    if ranges == [] then Ok(None)
    else
      var (range, target) := ranges[0];
      if target.group !in groupList then Ok(None)
      else if Contains(range, pos) then
        if target in binOf then Ok(Some(binOf[target])) else Err(MissingBin(target))
      else ResolveBin(ranges[1..], groupList, binOf, pos)
  }

  /** The scan gives up at the first range of a scaffold that is not kept, even
      when a later range contains `pos`; otherwise it answers with the global
      bin of the first range containing `pos`, and with nothing when no range
      does. */
  lemma {:induction false} ResolveBinMeaning(ranges: Dict<Interval, BinTarget>, groupList: seq<string>,
                                            binOf: map<BinTarget, int>, pos: int)
    ensures var f := ScanStop(ranges, groupList, pos);
      ResolveBin(ranges, groupList, binOf, pos) ==
        if f == |ranges| || ranges[f].1.group !in groupList then Ok(None)
        else if ranges[f].1 in binOf then Ok(Some(binOf[ranges[f].1]))
        else Err(MissingBin(ranges[f].1))
  {
    if ranges != [] && ranges[0].1.group in groupList && !Contains(ranges[0].0, pos) {
      ResolveBinMeaning(ranges[1..], groupList, binOf, pos);
    }
  }

  /** A resolved bin is one of the numbered bins. */
  lemma {:induction false} ResolvedBinIsNumbered(ranges: Dict<Interval, BinTarget>, groupList: seq<string>,
                                                binOf: map<BinTarget, int>, pos: int)
    requires ResolveBin(ranges, groupList, binOf, pos).Ok?
    requires ResolveBin(ranges, groupList, binOf, pos).value.Some?
    ensures exists t :: t in binOf && binOf[t] == ResolveBin(ranges, groupList, binOf, pos).value.value
  {
    if ranges[0].1.group in groupList && !Contains(ranges[0].0, pos) {
      ResolvedBinIsNumbered(ranges[1..], groupList, binOf, pos);
    }
  }

  /** The scanning loop of `convert_group_bin_id`. */
  method ConvertGroupBinId(ranges: Dict<Interval, BinTarget>, groupList: seq<string>,
                           binOf: map<BinTarget, int>, pos: int)
    returns (r: Result<Option<int>, PlotError>)
    ensures r == ResolveBin(ranges, groupList, binOf, pos)
  {
    for k := 0 to |ranges|
      invariant ResolveBin(ranges[k..], groupList, binOf, pos) == ResolveBin(ranges, groupList, binOf, pos)
    {
      assert ranges[k..][1..] == ranges[k + 1..];
      var (ctgRawBinRange, groupAndBin) := ranges[k];
      if groupAndBin.group !in groupList {
        return Ok(None);
      }
      if Contains(ctgRawBinRange, pos) {
        if groupAndBin !in binOf {
          return Err(MissingBin(groupAndBin));
        }
        return Ok(Some(binOf[groupAndBin]));
      }
    }
    return Ok(None);
  }

  /** The fields of a read-1 record the counting uses; a name is absent for an
      unmapped end. */
  datatype Contact = Contact(
    referenceName: Option<string>, referenceStart: int,
    nextReferenceName: Option<string>, nextReferenceStart: int)

  /** Both ends of the record name a contig of `ctg_set`. */
  predicate BothInSet(aln: Contact, ctgSet: set<string>) {
    && aln.referenceName.Some? && aln.referenceName.value in ctgSet
    && aln.nextReferenceName.Some? && aln.nextReferenceName.value in ctgSet
  }

  /** The matrix cell a record adds to, if any. */
  function ContactCell(aln: Contact, ctgDict: RangeTable, groupList: seq<string>,
                       binOf: map<BinTarget, int>, ctgSet: set<string>): (r: Result<Option<(int, int)>, PlotError>)
    ensures r.Ok? && r.value.Some? ==>
      && aln.referenceName.Some? && aln.referenceName.value in ctgSet
      && aln.nextReferenceName.Some? && aln.nextReferenceName.value in ctgSet
      && ResolveBin(RangesOf(ctgDict, aln.referenceName.value), groupList, binOf, aln.referenceStart + 1)
           == Ok(Some(r.value.value.0))
      && ResolveBin(RangesOf(ctgDict, aln.nextReferenceName.value), groupList, binOf, aln.nextReferenceStart + 1)
           == Ok(Some(r.value.value.1))
    ensures !BothInSet(aln, ctgSet) ==> r == Ok(None)
    ensures BothInSet(aln, ctgSet) ==>
      var first := ResolveBin(RangesOf(ctgDict, aln.referenceName.value), groupList, binOf, aln.referenceStart + 1);
      var second := ResolveBin(RangesOf(ctgDict, aln.nextReferenceName.value), groupList, binOf, aln.nextReferenceStart + 1);
      && (first.Err? ==> r == Err(first.error))
      && (first == Ok(None) ==> r == Ok(None))
      && (first.Ok? && first.value.Some? ==>
            && (second.Err? ==> r == Err(second.error))
            && (second == Ok(None) ==> r == Ok(None))
            && (second.Ok? && second.value.Some? ==> r == Ok(Some((first.value.value, second.value.value)))))
  {
    if aln.referenceName.None? || aln.referenceName.value !in ctgSet
       || aln.nextReferenceName.None? || aln.nextReferenceName.value !in ctgSet then Ok(None)
    else
      var row :- ResolveBin(RangesOf(ctgDict, aln.referenceName.value), groupList, binOf, aln.referenceStart + 1);
      if row.None? then Ok(None)
      else
        var col :- ResolveBin(RangesOf(ctgDict, aln.nextReferenceName.value), groupList, binOf, aln.nextReferenceStart + 1);
        if col.None? then Ok(None) else Ok(Some((row.value, col.value)))
  }

  /** The cells the records add to, in order, or the first failed lookup. */
  function Cells(alns: seq<Contact>, ctgDict: RangeTable, groupList: seq<string>,
                 binOf: map<BinTarget, int>, ctgSet: set<string>): Result<seq<(int, int)>, PlotError>
  {
    if alns == [] then Ok([])
    else
      var cells :- Cells(alns[..|alns| - 1], ctgDict, groupList, binOf, ctgSet);
      var cell :- ContactCell(alns[|alns| - 1], ctgDict, groupList, binOf, ctgSet);
      Ok(cells + (if cell.Some? then [cell.value] else []))
  }

  /** Reading one more record adds its cell, if any, after the cells of the records before it. */
  lemma CellsNext(alns: seq<Contact>, k: nat, ctgDict: RangeTable, groupList: seq<string>,
                  binOf: map<BinTarget, int>, ctgSet: set<string>)
    requires k < |alns|
    ensures Cells(alns[..k + 1], ctgDict, groupList, binOf, ctgSet) ==
      var cells :- Cells(alns[..k], ctgDict, groupList, binOf, ctgSet);
      var cell :- ContactCell(alns[k], ctgDict, groupList, binOf, ctgSet);
      Ok(cells + (if cell.Some? then [cell.value] else []))
  {
    assert alns[..k + 1][..k] == alns[..k] && alns[..k + 1][k] == alns[k];
  }

  lemma {:induction false} CellsErrorSticks(alns: seq<Contact>, n: nat, ctgDict: RangeTable, groupList: seq<string>,
                                           binOf: map<BinTarget, int>, ctgSet: set<string>)
    requires n <= |alns| && Cells(alns[..n], ctgDict, groupList, binOf, ctgSet).Err?
    ensures Cells(alns, ctgDict, groupList, binOf, ctgSet) == Cells(alns[..n], ctgDict, groupList, binOf, ctgSet)
    decreases |alns|
  {
    if n < |alns| {
      var front := alns[..|alns| - 1];
      assert front[..n] == alns[..n];
      CellsErrorSticks(front, n, ctgDict, groupList, binOf, ctgSet);
    } else {
      assert alns[..n] == alns;
    }
  }

  /** Every cell a record adds to is a pair of numbered bins. */
  lemma {:induction false} CellsAreNumbered(alns: seq<Contact>, ctgDict: RangeTable, groupList: seq<string>,
                                           binOf: map<BinTarget, int>, ctgSet: set<string>)
    requires Cells(alns, ctgDict, groupList, binOf, ctgSet).Ok?
    ensures forall cell :: cell in Cells(alns, ctgDict, groupList, binOf, ctgSet).value ==>
      (exists t :: t in binOf && binOf[t] == cell.0) && (exists t :: t in binOf && binOf[t] == cell.1)
  {
    if alns != [] {
      var aln := alns[|alns| - 1];
      CellsAreNumbered(alns[..|alns| - 1], ctgDict, groupList, binOf, ctgSet);
      var cell := ContactCell(aln, ctgDict, groupList, binOf, ctgSet);
      if cell.value.Some? {
        ResolvedBinIsNumbered(RangesOf(ctgDict, aln.referenceName.value), groupList, binOf, aln.referenceStart + 1);
        ResolvedBinIsNumbered(RangesOf(ctgDict, aln.nextReferenceName.value), groupList, binOf, aln.nextReferenceStart + 1);
      }
    }
  }

  /** `parse_bam`: for every read-1 record whose two ends lie on kept contigs
      and resolve to bins, adds 1 to the cell (reference bin, mate bin). */
  method ParseBam(alns: seq<Contact>, ctgDict: RangeTable, matrix: array2<int>,
                  binOf: map<BinTarget, int>, groupList: seq<string>, ctgSet: set<string>)
    returns (err: Option<PlotError>)
    requires forall t :: t in binOf ==> 0 <= binOf[t] < matrix.Length0 && binOf[t] < matrix.Length1
    modifies matrix
    ensures var cells := Cells(alns, ctgDict, groupList, binOf, ctgSet);
      && (cells.Err? ==> err == Some(cells.error))
      && (cells.Ok? ==> err == None)
      && (cells.Ok? ==>
            forall i, j :: 0 <= i < matrix.Length0 && 0 <= j < matrix.Length1 ==>
              matrix[i, j] == old(matrix[i, j]) + multiset(cells.value)[(i, j)])
  {
    ghost var cells: seq<(int, int)> := [];
    assert alns[..0] == [];
    for k := 0 to |alns|
      invariant Cells(alns[..k], ctgDict, groupList, binOf, ctgSet) == Ok(cells)
      invariant forall i, j :: 0 <= i < matrix.Length0 && 0 <= j < matrix.Length1 ==>
        matrix[i, j] == old(matrix[i, j]) + multiset(cells)[(i, j)]
    {
      CellsNext(alns, k, ctgDict, groupList, binOf, ctgSet);
      var cell := RecordCell(alns[k], ctgDict, groupList, binOf, ctgSet);
      if cell.Err? {
        CellsErrorSticks(alns, k + 1, ctgDict, groupList, binOf, ctgSet);
        return Some(cell.error);
      }
      if cell.value.None? {
        assert cells + [] == cells;
        continue;
      }
      var (row, col) := cell.value.value;
      AddOne(matrix, row, col);
      cells := cells + [(row, col)];
    }
    assert alns[..|alns|] == alns;
    err := None;
  }

  /** The lookups of `parse_bam` for one record. */
  method RecordCell(aln: Contact, ctgDict: RangeTable, groupList: seq<string>,
                    binOf: map<BinTarget, int>, ctgSet: set<string>) returns (cell: Result<Option<(int, int)>, PlotError>)
    ensures cell == ContactCell(aln, ctgDict, groupList, binOf, ctgSet)
    ensures cell.Ok? && cell.value.Some? ==>
      (exists t :: t in binOf && binOf[t] == cell.value.value.0) && (exists t :: t in binOf && binOf[t] == cell.value.value.1)
  {
    // a record counts only when both ends lie on contigs of kept scaffolds
    if aln.referenceName.None? || aln.referenceName.value !in ctgSet
       || aln.nextReferenceName.None? || aln.nextReferenceName.value !in ctgSet {
      return Ok(None);
    }
    var refGroupBinId := ConvertGroupBinId(RangesOf(ctgDict, aln.referenceName.value), groupList, binOf, aln.referenceStart + 1);
    if refGroupBinId.Err? {
      return Err(refGroupBinId.error);
    }
    if refGroupBinId.value.None? {
      return Ok(None);
    }
    var mrefGroupBinId := ConvertGroupBinId(RangesOf(ctgDict, aln.nextReferenceName.value), groupList, binOf, aln.nextReferenceStart + 1);
    if mrefGroupBinId.Err? {
      return Err(mrefGroupBinId.error);
    }
    if mrefGroupBinId.value.None? {
      return Ok(None);
    }
    ResolvedBinIsNumbered(RangesOf(ctgDict, aln.referenceName.value), groupList, binOf, aln.referenceStart + 1);
    ResolvedBinIsNumbered(RangesOf(ctgDict, aln.nextReferenceName.value), groupList, binOf, aln.nextReferenceStart + 1);
    return Ok(Some((refGroupBinId.value.value, mrefGroupBinId.value.value)));
  }

  /** `contact_matrix[row, col] += 1`. */
  method AddOne(matrix: array2<int>, row: int, col: int)
    requires 0 <= row < matrix.Length0 && 0 <= col < matrix.Length1
    modifies matrix
    ensures forall i, j :: 0 <= i < matrix.Length0 && 0 <= j < matrix.Length1 ==>
      matrix[i, j] == old(matrix[i, j]) + (if (i, j) == (row, col) then 1 else 0)
  {
    matrix[row, col] := matrix[row, col] + 1;
  }

  /** `contact_matrix + np.transpose(contact_matrix)`: a new matrix whose cell
      `(i, j)` holds the contacts counted at `(i, j)` and at `(j, i)`. */
  method AddTranspose(m: array2<int>) returns (s: array2<int>)
    requires m.Length0 == m.Length1
    ensures fresh(s) && s.Length0 == s.Length1 == m.Length0
    ensures forall i, j :: 0 <= i < s.Length0 && 0 <= j < s.Length1 ==> s[i, j] == m[i, j] + m[j, i]
    ensures forall i, j :: 0 <= i < s.Length0 && 0 <= j < s.Length1 ==> s[i, j] == s[j, i]
  {
    var n := m.Length0;
    s := new int[n, n];
    for i := 0 to n
      invariant forall i', j :: 0 <= i' < i && 0 <= j < n ==> s[i', j] == m[i', j] + m[j, i']
    {
      for j := 0 to n
        invariant forall i', j' :: 0 <= i' < i && 0 <= j' < n ==> s[i', j'] == m[i', j'] + m[j', i']
        invariant forall j' :: 0 <= j' < j ==> s[i, j'] == m[i, j'] + m[j', i]
      {
        s[i, j] := m[i, j] + m[j, i];
      }
    }
  }
}
