/**
  Read depths of assembly-graph segments drawn as a bedGraph track over one
  pseudo-chromosome, `assembly`, that holds every scaffolded contig end to
  end. Genome browsers refuse a chromosome longer than about 2.1 Gbp, so all
  coordinates are divided by a scale chosen to keep the pseudo-chromosome
  under that size. Every contig is cut into 100 kbp bins, and each bin is
  written with the depth of its contig.
*/
module DepthBedGraph {
  import opened Outcomes
  import opened Text

  /** The bin length of the track. */
  const BinSize: int := 100000

  /** The largest pseudo-chromosome the scale estimate aims below. */
  const MaxAssembly: int := 2100000000

  /** A contig of the AGP file in file order, with its length on the scaffold. */
  datatype Contig = Contig(name: string, length: int)

  datatype DepthError =
    | Malformed(line: nat)        // a missing column or a coordinate that is not an integer
    | ZeroScale                   // `total_len // scale` with a scale of 0
    | MissingDepth(contig: string)  // `depth_dict[ctg]` for a contig without a depth

  /** Python's `a // b`: the quotient rounded towards minus infinity, for a
      divisor of either sign. */
  function FloorDiv(a: int, b: int): (q: int)
    requires b != 0
    ensures b > 0 ==> q * b <= a < q * b + b
    ensures b < 0 ==> q * b >= a > q * b + b
  {
    if b > 0 then a / b else (-a) / (-b)
  }

  // ---------------------------------------------------------------------------
  // parse_agp

  /** One line of the AGP file: a `W` line gives its contig and the length
      `object_end - object_beg + 1`; comment, blank and other lines give nothing. */
  function ReadAgpLine(line: string, no: nat): (r: Result<Option<Contig>, DepthError>)
    ensures IsBlank(line) || StartsWith(line, "#") ==> r == Ok(None)
    ensures r.Ok? && r.value.Some? ==>
      var cols := Split(line);
      && |cols| >= 6 && cols[4] == "W" && ParseInt(cols[1]).Some? && ParseInt(cols[2]).Some?
      && r.value.value == Contig(cols[5], ParseInt(cols[2]).value - ParseInt(cols[1]).value + 1)
    ensures r.Err? ==> r.error == Malformed(no)
    ensures !IsBlank(line) && !StartsWith(line, "#") ==>
      var cols := Split(line);
      && (|cols| < 5 ==> r.Err?)
      && (|cols| >= 5 && cols[4] != "W" ==> r == Ok(None))
      && (|cols| >= 5 && cols[4] == "W" ==>
            && (r.Ok? <==> |cols| >= 6 && ParseInt(cols[1]).Some? && ParseInt(cols[2]).Some?)
            && (r.Ok? ==> r.value.Some?))
  {
    if IsBlank(line) || StartsWith(line, "#") then Ok(None)
    else
      var cols := Split(line);
      if |cols| < 5 then Err(Malformed(no))
      else if cols[4] != "W" then Ok(None)
      else if |cols| < 6 || ParseInt(cols[2]).None? || ParseInt(cols[1]).None? then Err(Malformed(no))
      else Ok(Some(Contig(cols[5], ParseInt(cols[2]).value - ParseInt(cols[1]).value + 1)))
  }

  /** `ctg_list`: the contigs of the `W` lines in file order, or the first error. */
  function ContigList(lines: seq<string>): Result<seq<Contig>, DepthError> {
    if lines == [] then Ok([])
    else
      var no := |lines| - 1;
      var ctgs :- ContigList(lines[..no]);
      var row :- ReadAgpLine(lines[no], no);
      if row.None? then Ok(ctgs) else Ok(ctgs + [row.value])
  }

  lemma {:induction false} ContigListErrorSticks(lines: seq<string>, n: nat)
    requires n <= |lines| && ContigList(lines[..n]).Err?
    ensures ContigList(lines) == ContigList(lines[..n])
    decreases |lines|
  {
    if n < |lines| {
      var front := lines[..|lines| - 1];
      assert front[..n] == lines[..n];
      ContigListErrorSticks(front, n);
    } else {
      assert lines[..n] == lines;
    }
  }

  /** The sum of the contig lengths. */
  function TotalLength(ctgs: seq<Contig>): int {
    if ctgs == [] then 0 else TotalLength(ctgs[..|ctgs| - 1]) + ctgs[|ctgs| - 1].length
  }

  /** What `parse_agp` hands on: the contigs, the scale and the assembly size. */
  datatype Layout = Layout(contigs: seq<Contig>, scale: int, assemblySize: int)

  /** `1 + total_len // 2100000000`. */
  function EstimatedScale(total: int): int {
    1 + total / MaxAssembly
  }

  /** The scale and the assembly size: the estimate when no scale is given,
      otherwise the given scale, whether or not it agrees with the estimate. */
  function ChooseScale(total: int, scale: Option<int>): (r: Result<(int, int), DepthError>)
    ensures scale.Some? ==> (r.Ok? <==> scale.value != 0)
    ensures scale.Some? && r.Ok? ==> r.value.0 == scale.value
    ensures scale.None? ==> (r.Ok? <==> EstimatedScale(total) != 0)
    ensures scale.None? && r.Ok? ==> r.value.0 == EstimatedScale(total)
    ensures r.Ok? ==> r.value.0 != 0 && r.value.1 == FloorDiv(total, r.value.0)
    ensures r.Err? ==> r.error == ZeroScale
  {
    var s := if scale.None? then EstimatedScale(total) else scale.value;
    if s == 0 then Err(ZeroScale) else Ok((s, FloorDiv(total, s)))
  }

  /** With a non-negative total the estimated scale is at least 1 and the
      scaled assembly is shorter than 2.1 Gbp. */
  lemma EstimatedScaleFits(total: int)
    requires total >= 0
    ensures EstimatedScale(total) >= 1
    ensures ChooseScale(total, None).Ok?
    ensures 0 <= ChooseScale(total, None).value.1 < MaxAssembly
  {
    var q := total / MaxAssembly;
    var s := q + 1;
    var a := total / s;
    assert total < s * MaxAssembly;
    if a >= MaxAssembly {
      MultiplyAtLeast(a, MaxAssembly, s);
      assert false;
    }
  }

  lemma MultiplyAtLeast(a: int, m: int, s: int)
    requires a >= m && s > 0
    ensures a * s >= m * s
  {
  }

  function ParseAgp(lines: seq<string>, scale: Option<int>): Result<Layout, DepthError> {
    var ctgs :- ContigList(lines);
    var chosen :- ChooseScale(TotalLength(ctgs), scale);
    Ok(Layout(ctgs, chosen.0, chosen.1))
  }

  /** `parse_agp`: collects the `W` contigs and their total length line by
      line, then settles the scale and the assembly size. */
  method ParseAgpLines(lines: seq<string>, scale: Option<int>) returns (r: Result<Layout, DepthError>)
    ensures r == ParseAgp(lines, scale)
  {
    var ctgList: seq<Contig> := [];
    var totalLen := 0;
    for no := 0 to |lines|
      invariant ContigList(lines[..no]) == Ok(ctgList)
      invariant totalLen == TotalLength(ctgList)
    {
      assert lines[..no + 1][..no] == lines[..no] && lines[..no + 1][no] == lines[no];
      var row := ReadAgpLine(lines[no], no);
      if row.Err? {
        ContigListErrorSticks(lines, no + 1);
        return Err(row.error);
      }
      if row.value.Some? {
        var ctg := row.value.value;
        assert (ctgList + [ctg])[..|ctgList|] == ctgList;
        totalLen := totalLen + ctg.length;
        ctgList := ctgList + [ctg];
      }
    }
    assert lines[..|lines|] == lines;
    var chosen := ChooseScale(totalLen, scale);
    if chosen.Err? {
      return Err(chosen.error);
    }
    return Ok(Layout(ctgList, chosen.value.0, chosen.value.1));
  }

  // ---------------------------------------------------------------------------
  // Bins

  /** `math.ceil(ctg_len / BIN_SIZE)` bins, none for a contig of length 0 or less. */
  function NumBins(len: int): nat {
    if len <= 0 then 0 else (len + BinSize - 1) / BinSize
  }

  /** For a positive length the number of bins is the least count of whole
      bins that covers the contig. */
  lemma NumBinsIsCeiling(len: int)
    requires len > 0
    ensures NumBins(len) >= 1
    ensures (NumBins(len) - 1) * BinSize < len <= NumBins(len) * BinSize
  {
  }

  /** A stretch `[start, end)` of the pseudo-chromosome lying in `contig`. */
  datatype Tile = Tile(contig: string, start: int, end: int)

  /** The bins of a contig of length `len` that starts at `acc`. */
  function ContigTiles(name: string, acc: int, len: int): (r: seq<Tile>)
    ensures |r| == NumBins(len)
  {
    seq(NumBins(len), n requires 0 <= n < NumBins(len) =>
      Tile(name, acc + n * BinSize,
           if (n + 1) * BinSize < len then acc + (n + 1) * BinSize else acc + len))
  }

  /** The bins of one contig tile `[acc, acc + len)`: they follow each other
      without gap or overlap, the first starts at `acc`, the last ends at
      `acc + len`, and each is non-empty and at most `BinSize` long. */
  lemma ContigTilesCover(name: string, acc: int, len: int)
    requires len > 0
    ensures var t := ContigTiles(name, acc, len);
      && |t| >= 1 && t[0].start == acc && t[|t| - 1].end == acc + len
      && (forall n :: 0 <= n < |t| ==> t[n].contig == name && 0 < t[n].end - t[n].start <= BinSize)
      && (forall n :: 0 <= n < |t| - 1 ==> t[n].end == t[n + 1].start)
  {
    NumBinsIsCeiling(len);
  }

  /** All bins in output order; each contig starts where the previous ones end
      (`accumulated_start`, the running sum of the lengths before it). */
  function Tiles(ctgs: seq<Contig>): seq<Tile> {
    if ctgs == [] then []
    else
      var front := ctgs[..|ctgs| - 1];
      var last := ctgs[|ctgs| - 1];
      Tiles(front) + ContigTiles(last.name, TotalLength(front), last.length)
  }

  predicate NonNegativeLengths(ctgs: seq<Contig>) {
    forall i :: 0 <= i < |ctgs| ==> ctgs[i].length >= 0
  }

  /** `t` tiles `[lo, hi)`: consecutive bins meet, the first starts at `lo`,
      the last ends at `hi`, every bin is non-empty and inside the range, and
      there is no bin only when the range is empty. */
  predicate Tiling(t: seq<Tile>, lo: int, hi: int) {
    && lo <= hi
    && (t == [] <==> lo == hi)
    && (t != [] ==> t[0].start == lo && t[|t| - 1].end == hi)
    && (forall k :: 0 <= k < |t| ==> lo <= t[k].start < t[k].end <= hi)
    && (forall k :: 0 <= k < |t| - 1 ==> t[k].end == t[k + 1].start)
  }

  /** With no negative length the bins tile `[0, total)`, starting from
      `accumulated_start = 0`. */
  lemma {:induction false} TilesCover(ctgs: seq<Contig>)
    requires NonNegativeLengths(ctgs)
    ensures Tiling(Tiles(ctgs), 0, TotalLength(ctgs))
  {
    if ctgs != [] {
      var front := ctgs[..|ctgs| - 1];
      var last := ctgs[|ctgs| - 1];
      assert NonNegativeLengths(front) by {
        forall i | 0 <= i < |front| ensures front[i].length >= 0 { assert front[i] == ctgs[i]; }
      }
      TilesCover(front);
      var f := Tiles(front);
      var mid := TotalLength(front);
      var c := ContigTiles(last.name, mid, last.length);
      assert Tiles(ctgs) == f + c;
      if last.length > 0 {
        ContigTilesCover(last.name, mid, last.length);
        assert Tiling(c, mid, mid + last.length);
        TilesAppend(f, c, 0, mid, mid + last.length);
      } else {
        assert c == [];
        assert f + c == f;
      }
    }
  }

  /** Gluing a tiling of `[lo, mid)` and a tiling of `[mid, hi)` tiles `[lo, hi)`. */
  lemma TilesAppend(f: seq<Tile>, c: seq<Tile>, lo: int, mid: int, hi: int)
    requires Tiling(f, lo, mid) && Tiling(c, mid, hi)
    ensures Tiling(f + c, lo, hi)
  {
    var t := f + c;
    forall k | 0 <= k < |t| ensures lo <= t[k].start < t[k].end <= hi {
      if k < |f| { assert t[k] == f[k]; } else { assert t[k] == c[k - |f|]; }
    }
    forall k | 0 <= k < |t| - 1 ensures t[k].end == t[k + 1].start {
      if k + 1 < |f| {
        assert t[k] == f[k] && t[k + 1] == f[k + 1];
      } else if k + 1 == |f| {
        assert t[k] == f[k] && t[k + 1] == c[0];
      } else {
        assert t[k] == c[k - |f|] && t[k + 1] == c[k + 1 - |f|];
      }
    }
    if f == [] { assert t == c; }
    if c == [] { assert t == f; }
  }

  // ---------------------------------------------------------------------------
  // output_bedGraph

  /** `'{}\t{}\t{}\t{}'.format('assembly', start // scale, end // scale, depth)`. */
  function BinLine(t: Tile, scale: int, depth: string): string
    requires scale != 0
  {
    "assembly\t" + IntToString(FloorDiv(t.start, scale)) + "\t" + IntToString(FloorDiv(t.end, scale)) + "\t" + depth
  }

  /** The lines of one contig: none when it has no bin, otherwise one per bin,
      which needs the contig's depth. */
  function ContigLines(name: string, acc: int, len: int, scale: int, depths: map<string, string>)
    : Result<seq<string>, DepthError>
    requires scale != 0
  {
    var tiles := ContigTiles(name, acc, len);
    if tiles == [] then Ok([])
    else if name !in depths then Err(MissingDepth(name))
    else Ok(seq(|tiles|, n requires 0 <= n < |tiles| => BinLine(tiles[n], scale, depths[name])))
  }

  /** The lines after the header, or the first contig without a depth. */
  function BodyLines(ctgs: seq<Contig>, scale: int, depths: map<string, string>): Result<seq<string>, DepthError>
    requires scale != 0
  {
    if ctgs == [] then Ok([])
    else
      var front := ctgs[..|ctgs| - 1];
      var last := ctgs[|ctgs| - 1];
      var body :- BodyLines(front, scale, depths);
      var more :- ContigLines(last.name, TotalLength(front), last.length, scale, depths);
      Ok(body + more)
  }

  /** The content of `in.bedGraph`. */
  function BedGraph(ctgs: seq<Contig>, scale: int, depths: map<string, string>): Result<seq<string>, DepthError>
    requires scale != 0
  {
    var body :- BodyLines(ctgs, scale, depths);
    Ok(["track type=bedGraph"] + body)
  }

  /** The content of `chrom.sizes`. */
  function ChromSizes(assemblySize: int): string {
    "assembly\t" + IntToString(assemblySize)
  }

  /** The track fails exactly when a contig with at least one bin has no
      depth; otherwise it holds one line per bin, in order, carrying the bin's
      scaled coordinates and its contig's depth. */
  lemma BodyLinesAreTiles(ctgs: seq<Contig>, scale: int, depths: map<string, string>)
    requires scale != 0
    ensures BodyLines(ctgs, scale, depths).Ok? <==>
      forall k :: 0 <= k < |Tiles(ctgs)| ==> Tiles(ctgs)[k].contig in depths
    ensures BodyLines(ctgs, scale, depths).Ok? ==>
      var t := Tiles(ctgs);
      && |BodyLines(ctgs, scale, depths).value| == |t|
      && forall k :: 0 <= k < |t| ==>
           BodyLines(ctgs, scale, depths).value[k] == BinLine(t[k], scale, depths[t[k].contig])
  {
    BodyLinesSucceed(ctgs, scale, depths);
    if BodyLines(ctgs, scale, depths).Ok? {
      BodyLinesContent(ctgs, scale, depths);
    }
  }

  /** The track has a line for every bin exactly when every contig with a bin has a depth. */
  lemma {:induction false} BodyLinesSucceed(ctgs: seq<Contig>, scale: int, depths: map<string, string>)
    requires scale != 0
    ensures BodyLines(ctgs, scale, depths).Ok? <==>
      forall k :: 0 <= k < |Tiles(ctgs)| ==> Tiles(ctgs)[k].contig in depths
  {
    if ctgs != [] {
      var front := ctgs[..|ctgs| - 1];
      var last := ctgs[|ctgs| - 1];
      BodyLinesSucceed(front, scale, depths);
      var f := Tiles(front);
      var c := ContigTiles(last.name, TotalLength(front), last.length);
      var t := Tiles(ctgs);
      assert t == f + c;
      assert forall n :: 0 <= n < |c| ==> c[n].contig == last.name;
      if BodyLines(front, scale, depths).Ok? {
        assert forall k :: 0 <= k < |Tiles(front)| ==> Tiles(front)[k].contig in depths;
        if c != [] && last.name !in depths {
          assert t[|f|].contig !in depths;
        } else {
          forall k | 0 <= k < |t| ensures t[k].contig in depths {
            if k < |f| { assert t[k] == f[k]; } else { assert t[k] == c[k - |f|]; }
          }
        }
      } else {
        var k :| 0 <= k < |f| && f[k].contig !in depths;
        assert t[k] == f[k];
      }
    }
  }

  /** Line k of the track is the line of bin k. */
  lemma {:induction false} BodyLinesContent(ctgs: seq<Contig>, scale: int, depths: map<string, string>)
    requires scale != 0 && BodyLines(ctgs, scale, depths).Ok?
    ensures LinesOfTiles(Tiles(ctgs), BodyLines(ctgs, scale, depths).value, scale, depths)
  {
    if ctgs != [] {
      var front := ctgs[..|ctgs| - 1];
      var last := ctgs[|ctgs| - 1];
      BodyLinesContent(front, scale, depths);
      var f := Tiles(front);
      var c := ContigTiles(last.name, TotalLength(front), last.length);
      var body := BodyLines(front, scale, depths).value;
      var more := ContigLines(last.name, TotalLength(front), last.length, scale, depths).value;
      assert Tiles(ctgs) == f + c;
      assert BodyLines(ctgs, scale, depths).value == body + more;
      ContigLinesContent(last.name, TotalLength(front), last.length, scale, depths);
      LinesOfTilesAppend(f, c, body, more, scale, depths);
    }
  }

  /** `lines` holds the line of every bin of `tiles`, in order. */
  predicate LinesOfTiles(tiles: seq<Tile>, lines: seq<string>, scale: int, depths: map<string, string>)
    requires scale != 0
  {
    && |lines| == |tiles|
    && forall k :: 0 <= k < |tiles| ==> tiles[k].contig in depths && lines[k] == BinLine(tiles[k], scale, depths[tiles[k].contig])
  }

  lemma ContigLinesContent(name: string, acc: int, len: int, scale: int, depths: map<string, string>)
    requires scale != 0 && ContigLines(name, acc, len, scale, depths).Ok?
    ensures LinesOfTiles(ContigTiles(name, acc, len), ContigLines(name, acc, len, scale, depths).value, scale, depths)
  {
    var c := ContigTiles(name, acc, len);
    assert forall n :: 0 <= n < |c| ==> c[n].contig == name;
  }

  lemma LinesOfTilesAppend(f: seq<Tile>, c: seq<Tile>, body: seq<string>, more: seq<string>, scale: int, depths: map<string, string>)
    requires scale != 0 && LinesOfTiles(f, body, scale, depths) && LinesOfTiles(c, more, scale, depths)
    ensures LinesOfTiles(f + c, body + more, scale, depths)
  {
    forall k | 0 <= k < |f + c|
      ensures (f + c)[k].contig in depths && (body + more)[k] == BinLine((f + c)[k], scale, depths[(f + c)[k].contig])
    {
      if k >= |f| {
        assert (f + c)[k] == c[k - |f|] && (body + more)[k] == more[k - |f|];
      }
    }
  }

  /** `in.bedGraph` is the header line followed by one line per bin, in
      order, and it can only fail on a contig without a depth. */
  lemma BedGraphShape(ctgs: seq<Contig>, scale: int, depths: map<string, string>)
    requires scale != 0
    ensures var t := Tiles(ctgs);
      BedGraph(ctgs, scale, depths).Ok? <==> forall k :: 0 <= k < |t| ==> t[k].contig in depths
    ensures BedGraph(ctgs, scale, depths).Err? ==> BedGraph(ctgs, scale, depths).error.MissingDepth?
    ensures BedGraph(ctgs, scale, depths).Ok? ==>
      var t, g := Tiles(ctgs), BedGraph(ctgs, scale, depths).value;
      && |g| == |t| + 1 && g[0] == "track type=bedGraph"
      && forall k :: 0 <= k < |t| ==> g[k + 1] == BinLine(t[k], scale, depths[t[k].contig])
  {
    BodyLinesAreTiles(ctgs, scale, depths);
    BodyLinesFailOnDepth(ctgs, scale, depths);
  }

  /** The only error the track can meet is a missing depth. */
  lemma {:induction false} BodyLinesFailOnDepth(ctgs: seq<Contig>, scale: int, depths: map<string, string>)
    requires scale != 0
    ensures BodyLines(ctgs, scale, depths).Err? ==> BodyLines(ctgs, scale, depths).error.MissingDepth?
  {
    if ctgs != [] {
      BodyLinesFailOnDepth(ctgs[..|ctgs| - 1], scale, depths);
    }
  }

  /** With a positive scale and no negative length every scaled coordinate
      lies within `[0, assembly size]`, and no bin is reversed. */
  lemma ScaledTilesFit(ctgs: seq<Contig>, scale: int)
    requires NonNegativeLengths(ctgs) && scale > 0
    ensures forall t :: t in Tiles(ctgs) ==>
      0 <= FloorDiv(t.start, scale) <= FloorDiv(t.end, scale) <= FloorDiv(TotalLength(ctgs), scale)
  {
    TilesCover(ctgs);
    forall t | t in Tiles(ctgs)
      ensures 0 <= FloorDiv(t.start, scale) <= FloorDiv(t.end, scale) <= FloorDiv(TotalLength(ctgs), scale)
    {
      DivMonotone(t.start, t.end, scale);
      DivMonotone(t.end, TotalLength(ctgs), scale);
      DivMonotone(0, t.start, scale);
    }
  }

  lemma DivMonotone(a: int, b: int, d: int)
    requires a <= b && d > 0
    ensures a / d <= b / d
  {
    if a / d > b / d {
      MultiplyAtLeast(a / d, b / d + 1, d);
      assert false;
    }
  }

  /** A line of the track splits into the pseudo-chromosome's name, the two
      scaled coordinates, which read back as the integers written, and the
      depth. */
  lemma BinLineColumns(t: Tile, scale: int, depth: string)
    requires scale != 0 && |depth| > 0 && NoSpace(depth)
    ensures var cols := Split(BinLine(t, scale, depth));
      && |cols| == 4 && cols[0] == "assembly" && cols[3] == depth
      && ParseInt(cols[1]) == Some(FloorDiv(t.start, scale))
      && ParseInt(cols[2]) == Some(FloorDiv(t.end, scale))
  {
    var s := IntToString(FloorDiv(t.start, scale));
    var e := IntToString(FloorDiv(t.end, scale));
    IntToStringToken(FloorDiv(t.start, scale));
    IntToStringToken(FloorDiv(t.end, scale));
    var parts := ["assembly", s, e, depth];
    JoinFour("assembly", s, e, depth);
    assert "assembly" + "\t" == "assembly\t";
    assert Join(parts, "\t") + [] == BinLine(t, scale, depth);
    SplitJoin(parts, []);
    IntToStringRoundTrip(FloorDiv(t.start, scale));
    IntToStringRoundTrip(FloorDiv(t.end, scale));
  }

  /** Four columns joined with tabs. */
  lemma JoinFour(a: string, b: string, c: string, d: string)
    ensures Join([a, b, c, d], "\t") == a + "\t" + b + "\t" + c + "\t" + d
  {
    var parts := [a, b, c, d];
    assert parts[1..] == [b, c, d] && parts[2..] == [c, d] && parts[3..] == [d];
    var j3 := Join(parts[2..], "\t");
    assert j3 == c + "\t" + d by { assert parts[2..][1..] == parts[3..]; assert Join(parts[3..], "\t") == d; }
    var j2 := Join(parts[1..], "\t");
    assert j2 == b + "\t" + j3 by { assert parts[1..][1..] == parts[2..]; }
  }

  lemma IntToStringToken(i: int)
    ensures |IntToString(i)| > 0 && NoSpace(IntToString(i))
  {
    var d := NatToString(if i < 0 then -i else i);
    NatToStringDigits(if i < 0 then -i else i);
    assert NoSpace(d) by {
      forall k | 0 <= k < |d| ensures !IsSpace(d[k]) { assert IsDigit(d[k]); }
    }
    if i < 0 {
      var s := IntToString(i);
      assert s == "-" + d;
      forall k | 0 <= k < |s| ensures !IsSpace(s[k]) {
        if k > 0 { assert s[k] == d[k - 1]; }
      }
    }
  }

  /** The lines of one contig (the inner loop of `output_bedGraph`). */
  method WriteContig(name: string, acc: int, len: int, scale: int, depths: map<string, string>)
    returns (r: Result<seq<string>, DepthError>)
    requires scale != 0
    ensures r == ContigLines(name, acc, len, scale, depths)
  {
    var lines: seq<string> := [];
    var tiles := ContigTiles(name, acc, len);
    var n := 0;
    while n < NumBins(len)
      invariant 0 <= n <= NumBins(len)
      invariant n > 0 ==> name in depths
      invariant |lines| == n && forall i :: 0 <= i < n ==> lines[i] == BinLine(tiles[i], scale, depths[name])
    {
      var start := acc + n * BinSize;
      var end := if (n + 1) * BinSize < len then acc + (n + 1) * BinSize else acc + len;
      if name !in depths {
        return Err(MissingDepth(name));
      }
      assert tiles[n] == Tile(name, start, end);
      var line := BinLine(Tile(name, start, end), scale, depths[name]);
      AppendLine(lines, line, tiles, scale, depths[name]);
      lines := lines + [line];
      n := n + 1;
    }
    ContigLinesAre(name, acc, len, scale, depths, lines);
    return Ok(lines);
  }

  /** Appending the line of the next bin keeps every line the line of its bin. */
  lemma AppendLine(lines: seq<string>, line: string, tiles: seq<Tile>, scale: int, depth: string)
    requires scale != 0 && |lines| < |tiles| && line == BinLine(tiles[|lines|], scale, depth)
    requires forall i :: 0 <= i < |lines| ==> lines[i] == BinLine(tiles[i], scale, depth)
    ensures forall i :: 0 <= i < |lines| + 1 ==> (lines + [line])[i] == BinLine(tiles[i], scale, depth)
  {
  }

  /** Lines written for every bin of a contig, which has a depth when it has
      a bin, are the contig's lines. */
  lemma ContigLinesAre(name: string, acc: int, len: int, scale: int, depths: map<string, string>, lines: seq<string>)
    requires scale != 0
    requires NumBins(len) > 0 ==> name in depths
    requires |lines| == NumBins(len)
    requires forall i :: 0 <= i < |lines| ==> name in depths && lines[i] == BinLine(ContigTiles(name, acc, len)[i], scale, depths[name])
    ensures ContigLines(name, acc, len, scale, depths) == Ok(lines)
  {
    var tiles := ContigTiles(name, acc, len);
    if tiles != [] {
      assert lines == seq(|tiles|, n requires 0 <= n < |tiles| => BinLine(tiles[n], scale, depths[name]));
    }
  }

  /** `output_bedGraph`: the `chrom.sizes` line, and the track, which starts
      with its header and gives each contig's bins in turn, the contig
      starting where the previous ones ended. `chrom.sizes` is written first,
      so it is produced even when the track aborts. */
  method OutputBedGraph(ctgs: seq<Contig>, scale: int, assemblySize: int, depths: map<string, string>)
    returns (chromSizes: string, bedGraph: Result<seq<string>, DepthError>)
    requires scale != 0
    ensures chromSizes == ChromSizes(assemblySize)
    ensures bedGraph == BedGraph(ctgs, scale, depths)
  {
    chromSizes := "assembly\t" + IntToString(assemblySize);
    var lines: seq<string> := [];
    var accumulatedStart := 0;
    for i := 0 to |ctgs|
      invariant BodyLines(ctgs[..i], scale, depths) == Ok(lines)
      invariant accumulatedStart == TotalLength(ctgs[..i])
    {
      assert ctgs[..i + 1][..i] == ctgs[..i] && ctgs[..i + 1][i] == ctgs[i];
      var more := WriteContig(ctgs[i].name, accumulatedStart, ctgs[i].length, scale, depths);
      if more.Err? {
        BodyLinesErrorSticks(ctgs, i + 1, scale, depths);
        return chromSizes, Err(more.error);
      }
      lines := lines + more.value;
      accumulatedStart := accumulatedStart + ctgs[i].length;
    }
    assert ctgs[..|ctgs|] == ctgs;
    bedGraph := Ok(["track type=bedGraph"] + lines);
  }

  lemma {:induction false} BodyLinesErrorSticks(ctgs: seq<Contig>, n: nat, scale: int, depths: map<string, string>)
    requires scale != 0
    requires n <= |ctgs| && BodyLines(ctgs[..n], scale, depths).Err?
    ensures BodyLines(ctgs, scale, depths) == BodyLines(ctgs[..n], scale, depths)
    decreases |ctgs|
  {
    if n < |ctgs| {
      var front := ctgs[..|ctgs| - 1];
      assert front[..n] == ctgs[..n];
      BodyLinesErrorSticks(front, n, scale, depths);
    } else {
      assert ctgs[..n] == ctgs;
    }
  }
}
