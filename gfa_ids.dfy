/**
  Renaming the segments of an assembly graph (GFA 1.0 `S` and `L` lines, plus
  hifiasm's `A` lines) after scaffolding: a liftover AGP file tells, for every
  contig, the scaffolds it was placed in and where; a contig placed once is
  renamed after its scaffold, a contig placed several times after all its
  scaffolds, ordered by position on the contig and joined with `_`.
*/
module GfaIds {
  import opened Outcomes
  import opened Text

  /** `(object_id, component_beg)` of one `W` line of the liftover file. */
  datatype Placement = Placement(scaffold: string, start: int)

  /** Contig name to its placements, in file order until a conversion sorts them. */
  type IdDict = map<string, seq<Placement>>

  /** Why a run aborts; `line` is the 0-based line number. */
  datatype ConvertError =
    | Malformed(line: nat)          // a missing column or a `component_beg` that is not an integer
    | UnknownId(id: string)         // the assertion that the segment has a placement
    | UnknownRecordType(line: nat)  // the assertion that a line other than `S`/`A` is `L`

  // ---------------------------------------------------------------------------
  // Sorting placements by start (`list.sort(key=...)`, which is stable)

  predicate SortedByStart(s: seq<Placement>) {
    forall i, j :: 0 <= i < j < |s| ==> s[i].start <= s[j].start
  }

  /** Inserts `x` before the first placement that does not start before it. */
  function Insert(x: Placement, s: seq<Placement>): (r: seq<Placement>)
    ensures multiset(r) == multiset(s) + multiset{x}
  {
    if s == [] || x.start <= s[0].start then [x] + s
    else
      assert s == [s[0]] + s[1..];
      [s[0]] + Insert(x, s[1..])
  }

  lemma {:induction false} InsertSorted(x: Placement, s: seq<Placement>)
    requires SortedByStart(s)
    ensures SortedByStart(Insert(x, s))
  {
    if s != [] && x.start > s[0].start {
      var t := Insert(x, s[1..]);
      InsertSorted(x, s[1..]);
      InsertHead(x, s[1..]);
      assert |s| > 1 ==> s[0].start <= s[1].start;
      ConsSorted(s[0], t);
    }
  }

  /** The first placement after an insertion is the inserted one or the old first one. */
  lemma InsertHead(x: Placement, s: seq<Placement>)
    ensures Insert(x, s) != [] && (Insert(x, s)[0] == x || (s != [] && Insert(x, s)[0] == s[0]))
  {
  }

  /** A placement that starts no later than the first of a sorted list can go in front. */
  lemma ConsSorted(a: Placement, t: seq<Placement>)
    requires SortedByStart(t) && (t != [] ==> a.start <= t[0].start)
    ensures SortedByStart([a] + t)
  {
    var r := [a] + t;
    forall i, j | 0 <= i < j < |r| ensures r[i].start <= r[j].start {
      if i == 0 {
        assert r[j] == t[j - 1];
        assert t[0].start <= t[j - 1].start;
      } else {
        assert r[i] == t[i - 1] && r[j] == t[j - 1];
      }
    }
  }

  /** `list.sort(key=start)`: a stable insertion sort. */
  function SortByStart(s: seq<Placement>): (r: seq<Placement>)
    ensures multiset(r) == multiset(s)
    ensures SortedByStart(r)
  {
    if s == [] then []
    else
      assert s == [s[0]] + s[1..];
      InsertSorted(s[0], SortByStart(s[1..]));
      Insert(s[0], SortByStart(s[1..]))
  }

  /** The placements with start `k`, in order. */
  function WithStart(s: seq<Placement>, k: int): seq<Placement> {
    if s == [] then []
    else (if s[0].start == k then [s[0]] else []) + WithStart(s[1..], k)
  }

  lemma {:induction false} InsertWithStart(x: Placement, s: seq<Placement>, k: int)
    ensures WithStart(Insert(x, s), k) == (if x.start == k then [x] else []) + WithStart(s, k)
  {
    if s == [] || x.start <= s[0].start {
      assert ([x] + s)[1..] == s;
    } else {
      var t := [s[0]] + Insert(x, s[1..]);
      assert t[1..] == Insert(x, s[1..]);
      InsertWithStart(x, s[1..], k);
    }
  }

  /** The sort is stable: placements with equal starts keep their order. */
  lemma {:induction false} SortStable(s: seq<Placement>, k: int)
    ensures WithStart(SortByStart(s), k) == WithStart(s, k)
  {
    if s != [] {
      SortStable(s[1..], k);
      InsertWithStart(s[0], SortByStart(s[1..]), k);
    }
  }

  /** Sorting sorted placements changes nothing. */
  lemma {:induction false} SortSorted(s: seq<Placement>)
    requires SortedByStart(s)
    ensures SortByStart(s) == s
  {
    if s != [] {
      SortSorted(s[1..]);
      assert s == [s[0]] + s[1..];
    }
  }

  /** Sorting twice is sorting once. */
  lemma SortIdempotent(s: seq<Placement>)
    ensures SortByStart(SortByStart(s)) == SortByStart(s)
  {
    SortSorted(SortByStart(s));
  }

  function Names(s: seq<Placement>): (r: seq<string>)
    ensures |r| == |s| && forall i :: 0 <= i < |s| ==> r[i] == s[i].scaffold
  {
    seq(|s|, i requires 0 <= i < |s| => s[i].scaffold)
  }

  // ---------------------------------------------------------------------------
  // parse_liftover

  /** One line of the liftover file: the contig and its placement for a `W`
      line, nothing for comment, blank and other lines. */
  function ReadLiftoverLine(line: string, no: nat): (r: Result<Option<(string, Placement)>, ConvertError>)
    ensures StartsWith(line, "#") || IsBlank(line) ==> r == Ok(None)
    ensures r.Ok? && r.value.Some? ==>
      var cols := Split(line);
      && |cols| >= 7 && cols[4] == "W" && ParseInt(cols[6]).Some?
      && r.value.value == (cols[5], Placement(cols[0], ParseInt(cols[6]).value))
    ensures r.Err? ==> r.error == Malformed(no)
    ensures !StartsWith(line, "#") && !IsBlank(line) ==>
      var cols := Split(line);
      && (|cols| < 5 ==> r.Err?)
      && (|cols| >= 5 && cols[4] != "W" ==> r == Ok(None))
      && (|cols| >= 5 && cols[4] == "W" ==>
            && (r.Ok? <==> |cols| >= 7 && ParseInt(cols[6]).Some?)
            && (r.Ok? ==> r.value.Some?))
  {
    if StartsWith(line, "#") || IsBlank(line) then Ok(None)
    else
      var cols := Split(line);
      if |cols| < 5 then Err(Malformed(no))
      else if cols[4] != "W" then Ok(None)
      else if |cols| < 7 || ParseInt(cols[6]).None? then Err(Malformed(no))
      else Ok(Some((cols[5], Placement(cols[0], ParseInt(cols[6]).value))))
  }

  /** `id_dict[contig]` of a `defaultdict(list)`. */
  function EntriesOf(d: IdDict, contig: string): seq<Placement> {
    if contig in d then d[contig] else []
  }

  /** The dictionary built from the liftover lines, or the first error. */
  function Liftover(lines: seq<string>): Result<IdDict, ConvertError> {
    if lines == [] then Ok(map[])
    else
      var no := |lines| - 1;
      var d :- Liftover(lines[..no]);
      var row :- ReadLiftoverLine(lines[no], no);
      if row.None? then Ok(d)
      else Ok(d[row.value.0 := EntriesOf(d, row.value.0) + [row.value.1]])
  }

  lemma {:induction false} LiftoverErrorSticks(lines: seq<string>, n: nat)
    requires n <= |lines| && Liftover(lines[..n]).Err?
    ensures Liftover(lines) == Liftover(lines[..n])
    decreases |lines|
  {
    if n < |lines| {
      var front := lines[..|lines| - 1];
      assert front[..n] == lines[..n];
      LiftoverErrorSticks(front, n);
    } else {
      assert lines[..n] == lines;
    }
  }

  /** `parse_liftover`: for every `W` line, appends `(object_id, component_beg)`
      to the list of its `component_id`. */
  method ParseLiftover(lines: seq<string>) returns (r: Result<IdDict, ConvertError>)
    ensures r == Liftover(lines)
  {
    var idDict: IdDict := map[];
    for no := 0 to |lines|
      invariant Liftover(lines[..no]) == Ok(idDict)
    {
      assert lines[..no + 1][..no] == lines[..no] && lines[..no + 1][no] == lines[no];
      var line := lines[no];
      if StartsWith(line, "#") || IsBlank(line) {
        continue;
      }
      var cols := Split(line);
      if |cols| < 5 {
        LiftoverErrorSticks(lines, no + 1);
        return Err(Malformed(no));
      }
      if cols[4] == "W" {
        if |cols| < 7 || ParseInt(cols[6]).None? {
          LiftoverErrorSticks(lines, no + 1);
          return Err(Malformed(no));
        }
        idDict := idDict[cols[5] := EntriesOf(idDict, cols[5]) + [Placement(cols[0], ParseInt(cols[6]).value)]];
      }
    }
    assert lines[..|lines|] == lines;
    return Ok(idDict);
  }

  /** The placements of `contig` in the order of the liftover lines. */
  function Placements(lines: seq<string>, contig: string): seq<Placement> {
    if lines == [] then []
    else
      var no := |lines| - 1;
      match ReadLiftoverLine(lines[no], no)
      case Ok(Some((c, p))) => Placements(lines[..no], contig) + (if c == contig then [p] else [])
      case _ => Placements(lines[..no], contig)
  }

  /** Every contig, and only a contig, named by some `W` line has a list, and
      the list holds that contig's placements in file order. */
  lemma {:induction false} LiftoverPlacements(lines: seq<string>)
    requires Liftover(lines).Ok?
    ensures forall c :: EntriesOf(Liftover(lines).value, c) == Placements(lines, c)
    ensures forall c :: c in Liftover(lines).value ==> Placements(lines, c) != []
  {
    if lines != [] {
      LiftoverPlacements(lines[..|lines| - 1]);
    }
  }

  /** What the conversion relies on: every list is non-empty and every
      scaffold name is a single non-empty token. */
  ghost predicate WellFormedIds(d: IdDict) {
    forall c :: c in d ==>
      && d[c] != []
      && forall p :: p in d[c] ==> |p.scaffold| > 0 && NoSpace(p.scaffold)
  }

  lemma {:induction false} LiftoverWellFormed(lines: seq<string>)
    requires Liftover(lines).Ok?
    ensures WellFormedIds(Liftover(lines).value)
  {
    if lines != [] {
      var no := |lines| - 1;
      LiftoverWellFormed(lines[..no]);
      var row := ReadLiftoverLine(lines[no], no).value;
      if row.Some? {
        var cols := Split(lines[no]);
        SplitTokens(lines[no]);
        assert cols[0] in cols;
      }
    }
  }

  // ---------------------------------------------------------------------------
  // get_converted_id

  /** The new name of segment `id`. */
  function Converted(d: IdDict, id: string): Result<string, ConvertError> {
    if id !in d then Err(UnknownId(id))
    else if |d[id]| > 1 then Ok(Join(Names(SortByStart(d[id])), "_"))
    else if |d[id]| == 1 then Ok(d[id][0].scaffold)
    else Err(UnknownId(id))
  }

  /** On a well-formed dictionary a segment converts exactly when it has
      placements, and its new name is one non-empty token. */
  lemma ConvertedIsToken(d: IdDict, id: string)
    requires WellFormedIds(d)
    ensures Converted(d, id).Ok? <==> id in d
    ensures Converted(d, id).Ok? ==> |Converted(d, id).value| > 0 && NoSpace(Converted(d, id).value)
  {
    if id in d && |d[id]| > 1 {
      var s := SortByStart(d[id]);
      forall t | t in Names(s) ensures |t| > 0 && NoSpace(t) {
        var i :| 0 <= i < |Names(s)| && Names(s)[i] == t;
        assert s[i] in multiset(d[id]);
      }
      JoinIsToken(Names(s), "_");
    } else if id in d {
      assert d[id][0] in d[id];
    }
  }

  /** `get_converted_id`: a segment with one placement is renamed after its
      scaffold; one with several has its list sorted in place by start and is
      renamed after all its scaffolds joined with `_`. */
  method GetConvertedId(idDict: IdDict, oldId: string) returns (newId: Result<string, ConvertError>, idDict': IdDict)
    ensures newId == Converted(idDict, oldId)
    ensures idDict' == if oldId in idDict && |idDict[oldId]| > 1
      then idDict[oldId := SortByStart(idDict[oldId])] else idDict
  {
    idDict' := idDict;
    if oldId !in idDict {
      return Err(UnknownId(oldId)), idDict';
    }
    if |idDict[oldId]| > 1 {
      idDict' := idDict[oldId := SortByStart(idDict[oldId])];
      return Ok(Join(Names(idDict'[oldId]), "_")), idDict';
    }
    if |idDict[oldId]| != 1 {
      return Err(UnknownId(oldId)), idDict';
    }
    return Ok(idDict[oldId][0].scaffold), idDict';
  }

  /** Sorting one list in place does not change any conversion, so converting
      the same segment again gives the same name. */
  lemma ConvertedAfterSort(d: IdDict, id: string, x: string)
    requires id in d
    ensures Converted(d[id := SortByStart(d[id])], x) == Converted(d, x)
  {
    if x == id {
      SortedListConverts(d[id]);
    }
  }

  /** Sorting keeps the number of placements, sorting twice is sorting once,
      and a one-placement list sorts to itself. */
  lemma SortedListConverts(s: seq<Placement>)
    ensures |SortByStart(s)| == |s|
    ensures SortByStart(SortByStart(s)) == SortByStart(s)
    ensures |s| == 1 ==> SortByStart(s) == s
  {
    SortIdempotent(s);
    if |s| == 1 {
      SortSorted(s);
    }
    assert |multiset(SortByStart(s))| == |multiset(s)|;
  }

  /** Two dictionaries that convert every segment alike. */
  ghost predicate SameConversions(d: IdDict, d0: IdDict) {
    forall x :: Converted(d, x) == Converted(d0, x)
  }

  // ---------------------------------------------------------------------------
  // read_gfa

  /** The line written for the columns of one non-blank GFA line: `S` and `A`
      lines have their second column converted, `L` lines their second and
      fourth; every other record type aborts the run. */
  function ConvertColumns(cols: seq<string>, d: IdDict, no: nat): Result<string, ConvertError>
    requires cols != []
  {
    if cols[0] == "S" || cols[0] == "A" then
      if |cols| < 2 then Err(Malformed(no))
      else
        var newId :- Converted(d, cols[1]);
        Ok(cols[0] + "\t" + newId + "\t" + Join(cols[2..], "\t"))
    else if cols[0] != "L" then Err(UnknownRecordType(no))
    else if |cols| < 2 then Err(Malformed(no))
    else
      var newId1 :- Converted(d, cols[1]);
      if |cols| < 4 then Err(Malformed(no))
      else
        var newId2 :- Converted(d, cols[3]);
        if |cols| < 5 then Err(Malformed(no))
        else Ok("L\t" + newId1 + "\t" + cols[2] + "\t" + newId2 + "\t" + cols[4] + "\t" + Join(cols[5..], "\t"))
  }

  /** The line written for one GFA line, nothing for a blank line, or why the run aborts. */
  function ConvertLine(line: string, d: IdDict, no: nat): Result<Option<string>, ConvertError> {
    if IsBlank(line) then Ok(None)
    else
      SplitTokens(line);
      var out :- ConvertColumns(Split(line), d, no);
      Ok(Some(out))
  }

  /** A line converts exactly when it is blank, or is an `S`/`A` line whose
      segment has placements, or an `L` line with at least five columns whose
      two segments have placements. */
  lemma ConvertLineSucceeds(line: string, d: IdDict, no: nat)
    requires WellFormedIds(d)
    ensures var cols := Split(line);
      ConvertLine(line, d, no).Ok? <==>
        || IsBlank(line)
        || (|cols| >= 2 && (cols[0] == "S" || cols[0] == "A") && cols[1] in d)
        || (|cols| >= 5 && cols[0] == "L" && cols[1] in d && cols[3] in d)
  {
    SplitTokens(line);
    var cols := Split(line);
    if !IsBlank(line) && |cols| >= 2 {
      ConvertedIsToken(d, cols[1]);
      if |cols| >= 4 {
        ConvertedIsToken(d, cols[3]);
      }
    }
  }

  /** The line written for a non-blank line has the columns of the line read,
      with the segment names replaced by their new names. */
  lemma ConvertLineColumns(line: string, d: IdDict, no: nat)
    requires WellFormedIds(d)
    requires ConvertLine(line, d, no).Ok? && !IsBlank(line)
    ensures var cols := Split(line);
      && |cols| >= 2
      && ConvertLine(line, d, no).value.Some?
      && Split(ConvertLine(line, d, no).value.value) ==
           if cols[0] == "L" then cols[1 := Converted(d, cols[1]).value][3 := Converted(d, cols[3]).value]
           else cols[1 := Converted(d, cols[1]).value]
  {
    var cols := Split(line);
    SplitTokens(line);
    assert ConvertLine(line, d, no) == Ok(Some(ConvertColumns(cols, d, no).value));
    if cols[0] == "L" {
      LinkColumns(cols, d, no);
    } else {
      SegmentColumns(cols, d, no);
    }
  }

  lemma SegmentColumns(cols: seq<string>, d: IdDict, no: nat)
    requires WellFormedIds(d) && forall t :: t in cols ==> |t| > 0 && NoSpace(t)
    requires |cols| >= 2 && (cols[0] == "S" || cols[0] == "A") && ConvertColumns(cols, d, no).Ok?
    ensures Split(ConvertColumns(cols, d, no).value) == cols[1 := Converted(d, cols[1]).value]
  {
    ConvertedIsToken(d, cols[1]);
    var id1 := Converted(d, cols[1]).value;
    var out := ConvertColumns(cols, d, no).value;
    assert out == cols[0] + "\t" + id1 + "\t" + Join(cols[2..], "\t");
    SegmentRenamed(cols, id1);
  }

  /** An `S` or `A` line written with a new second column splits into the
      columns read, with the second one replaced. */
  lemma SegmentRenamed(cols: seq<string>, id1: string)
    requires |cols| >= 2 && forall t :: t in cols ==> |t| > 0 && NoSpace(t)
    requires |id1| > 0 && NoSpace(id1)
    ensures Split(cols[0] + "\t" + id1 + "\t" + Join(cols[2..], "\t")) == cols[1 := id1]
  {
    var head := [cols[0], id1];
    assert Join(head, "\t") == cols[0] + "\t" + id1 by {
      assert head[1..] == [id1];
    }
    assert cols[0] in cols;
    SplitJoinedLine(head, cols[2..]);
    assert head + cols[2..] == cols[1 := id1];
  }

  lemma LinkColumns(cols: seq<string>, d: IdDict, no: nat)
    requires WellFormedIds(d) && forall t :: t in cols ==> |t| > 0 && NoSpace(t)
    requires |cols| >= 2 && cols[0] == "L" && ConvertColumns(cols, d, no).Ok?
    ensures |cols| >= 5
    ensures Split(ConvertColumns(cols, d, no).value) ==
      cols[1 := Converted(d, cols[1]).value][3 := Converted(d, cols[3]).value]
  {
    ConvertedIsToken(d, cols[1]);
    ConvertedIsToken(d, cols[3]);
    var id1 := Converted(d, cols[1]).value;
    var id2 := Converted(d, cols[3]).value;
    var out := ConvertColumns(cols, d, no).value;
    var head := ["L", id1, cols[2], id2, cols[4]];
    JoinLinkColumns(id1, cols[2], id2, cols[4], Join(cols[5..], "\t"));
    assert out == Join(head, "\t") + "\t" + Join(cols[5..], "\t");
    SplitJoinedLine(head, cols[5..]);
    LinkHeadRenamed(cols, id1, id2);
  }

  /** The five leading columns of an `L` line with its two segment names
      replaced, followed by the rest, are the line with those names replaced. */
  lemma LinkHeadRenamed(cols: seq<string>, id1: string, id2: string)
    requires |cols| >= 5 && cols[0] == "L"
    ensures ["L", id1, cols[2], id2, cols[4]] + cols[5..] == cols[1 := id1][3 := id2]
  {
    var head := ["L", id1, cols[2], id2, cols[4]];
    var renamed := cols[1 := id1][3 := id2];
    assert |head + cols[5..]| == |renamed|;
    forall k | 0 <= k < |renamed| ensures (head + cols[5..])[k] == renamed[k] {
      if k >= 5 { assert (head + cols[5..])[k] == cols[5..][k - 5]; }
    }
  }

  /** The `L` line written by `read_gfa` is its five leading columns joined
      with tabs, a tab and the remaining columns joined with tabs. */
  lemma JoinLinkColumns(b: string, c: string, d: string, e: string, z: string)
    ensures Join(["L", b, c, d, e], "\t") + "\t" + z == "L\t" + b + "\t" + c + "\t" + d + "\t" + e + "\t" + z
  {
    var p := ["L", b, c, d, e];
    assert p[1..] == [b, c, d, e] && p[2..] == [c, d, e] && p[3..] == [d, e] && p[4..] == [e];
    var j4 := Join(p[3..], "\t");
    assert j4 == d + "\t" + e by { assert p[3..][1..] == p[4..]; assert Join(p[4..], "\t") == e; }
    var j3 := Join(p[2..], "\t");
    assert j3 == c + "\t" + j4 by { assert p[2..][1..] == p[3..]; }
    var j2 := Join(p[1..], "\t");
    assert j2 == b + "\t" + j3 by { assert p[1..][1..] == p[2..]; }
    assert Join(p, "\t") == "L" + "\t" + j2;
    assert "L" + "\t" == "L\t";
  }

  /** What a run writes, and the error that stopped it, if any. */
  datatype Run = Run(out: seq<string>, err: Option<ConvertError>)

  function ConvertGfa(lines: seq<string>, d: IdDict): Run {
    if lines == [] then Run([], None)
    else
      var no := |lines| - 1;
      var r := ConvertGfa(lines[..no], d);
      if r.err.Some? then r
      else match ConvertLine(lines[no], d, no)
        case Err(e) => Run(r.out, Some(e))
        case Ok(None) => r
        case Ok(Some(l)) => Run(r.out + [l], None)
  }

  lemma {:induction false} ConvertGfaErrorSticks(lines: seq<string>, n: nat, d: IdDict)
    requires n <= |lines| && ConvertGfa(lines[..n], d).err.Some?
    ensures ConvertGfa(lines, d) == ConvertGfa(lines[..n], d)
    decreases |lines|
  {
    if n < |lines| {
      var front := lines[..|lines| - 1];
      assert front[..n] == lines[..n];
      ConvertGfaErrorSticks(front, n, d);
    } else {
      assert lines[..n] == lines;
    }
  }

  /** A run that completes writes one line per non-blank line read. */
  lemma {:induction false} ConvertGfaLength(lines: seq<string>, d: IdDict)
    requires ConvertGfa(lines, d).err.None?
    ensures |ConvertGfa(lines, d).out| == |NonBlank(lines)|
  {
    if lines != [] {
      var no := |lines| - 1;
      ConvertGfaLength(lines[..no], d);
      if !IsBlank(lines[no]) {
        SplitTokens(lines[no]);
      }
    }
  }

  function NonBlank(lines: seq<string>): seq<string> {
    if lines == [] then []
    else NonBlank(lines[..|lines| - 1]) + (if IsBlank(lines[|lines| - 1]) then [] else [lines[|lines| - 1]])
  }

  /** Sorting a list while converting leaves every conversion as it was. */
  lemma KeepsConversions(d: IdDict, id: string, d0: IdDict)
    requires SameConversions(d, d0)
    ensures id in d && |d[id]| > 1 ==> SameConversions(d[id := SortByStart(d[id])], d0)
  {
    if id in d && |d[id]| > 1 {
      forall x ensures Converted(d[id := SortByStart(d[id])], x) == Converted(d0, x) {
        ConvertedAfterSort(d, id, x);
      }
    }
  }

  /** The body of the line loop for a non-blank line: converts the segment
      names of an `S`/`A` or an `L` line through `GetConvertedId`, which may
      sort lists of the dictionary in place. */
  method ConvertRecord(cols: seq<string>, idDict: IdDict, ghost idDict0: IdDict, no: nat)
    returns (line: Result<string, ConvertError>, idDict': IdDict)
    requires cols != [] && SameConversions(idDict, idDict0)
    ensures SameConversions(idDict', idDict0)
    ensures line == ConvertColumns(cols, idDict0, no)
  {
    idDict' := idDict;
    if cols[0] == "S" || cols[0] == "A" {
      if |cols| < 2 {
        return Err(Malformed(no)), idDict';
      }
      KeepsConversions(idDict', cols[1], idDict0);
      var newId;
      newId, idDict' := GetConvertedId(idDict', cols[1]);
      if newId.Err? {
        return Err(newId.error), idDict';
      }
      return Ok(cols[0] + "\t" + newId.value + "\t" + Join(cols[2..], "\t")), idDict';
    }
    if cols[0] != "L" {
      return Err(UnknownRecordType(no)), idDict';
    }
    if |cols| < 2 {
      return Err(Malformed(no)), idDict';
    }
    KeepsConversions(idDict', cols[1], idDict0);
    var newId1;
    newId1, idDict' := GetConvertedId(idDict', cols[1]);
    if newId1.Err? {
      return Err(newId1.error), idDict';
    }
    if |cols| < 4 {
      return Err(Malformed(no)), idDict';
    }
    KeepsConversions(idDict', cols[3], idDict0);
    var newId2;
    newId2, idDict' := GetConvertedId(idDict', cols[3]);
    if newId2.Err? {
      return Err(newId2.error), idDict';
    }
    if |cols| < 5 {
      return Err(Malformed(no)), idDict';
    }
    return Ok("L\t" + newId1.value + "\t" + cols[2] + "\t" + newId2.value + "\t" + cols[4] + "\t" + Join(cols[5..], "\t")), idDict';
  }

  /** `read_gfa`: writes every non-blank line with its segment names
      converted, and stops at the first line that cannot be converted. The
      dictionary's lists are sorted in place as segments are converted. */
  method ReadGfa(lines: seq<string>, idDict0: IdDict) returns (out: seq<string>, err: Option<ConvertError>)
    ensures Run(out, err) == ConvertGfa(lines, idDict0)
  {
    var idDict := idDict0;
    out := [];
    for no := 0 to |lines|
      invariant SameConversions(idDict, idDict0)
      invariant ConvertGfa(lines[..no], idDict0) == Run(out, None)
    {
      assert lines[..no + 1][..no] == lines[..no] && lines[..no + 1][no] == lines[no];
      var line := lines[no];
      if IsBlank(line) {
        continue;
      }
      SplitTokens(line);
      var cols := Split(line);
      var converted;
      converted, idDict := ConvertRecord(cols, idDict, idDict0, no);
      if converted.Err? {
        ConvertGfaErrorSticks(lines, no + 1, idDict0);
        return out, Some(converted.error);
      }
      out := out + [converted.value];
    }
    assert lines[..|lines|] == lines;
    err := None;
  }
}
