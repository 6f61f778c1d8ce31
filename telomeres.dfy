/**
  Telomere scanning over a genome in FASTA format: the sequences of the
  selected contigs are read, and for each one the script counts the
  non-overlapping occurrences of the doubled telomere repeat and of its
  doubled reverse complement, finds the leftmost forward and the rightmost
  reverse occurrence, and, on request, spreads the single-repeat matches over
  a 100-bin histogram of positions along the contig.

  Repeats are matched as literal strings; the scripts hand them to Python's
  regular-expression engine, which treats a repeat made of bases the same way.
*/
module Telomeres {
  import opened Outcomes
  import opened Text
  import opened Dicts

  // ---------------------------------------------------------------------------
  // revcom

  /** `str.maketrans('ATCGN', 'TAGCN')`: the complementary base of an upper-case
      base; every other character is left as it is. */
  function Comp(c: char): char {
    if c == 'A' then 'T'
    else if c == 'T' then 'A'
    else if c == 'C' then 'G'
    else if c == 'G' then 'C'
    else c
  }

  /** `s[::-1]`. */
  function Reverse(s: string): (r: string)
    ensures |r| == |s| && forall i :: 0 <= i < |s| ==> r[i] == s[|s| - 1 - i]
  {
    seq(|s|, i requires 0 <= i < |s| => s[|s| - 1 - i])
  }

  /** `revcom`: the reversed sequence with each base complemented. */
  function RevCom(s: string): string {
    seq(|s|, i requires 0 <= i < |s| => Comp(s[|s| - 1 - i]))
  }

  /** `revcom` keeps the length, reads the sequence backwards complementing
      A and T, C and G, keeps N and every other character, and undoes itself. */
  lemma RevComMeaning(s: string)
    ensures |RevCom(s)| == |s|
    ensures forall i :: 0 <= i < |s| ==> RevCom(s)[i] == Comp(s[|s| - 1 - i])
    ensures forall c :: (c == 'A' <==> Comp(c) == 'T') && (c == 'T' <==> Comp(c) == 'A')
    ensures forall c :: (c == 'C' <==> Comp(c) == 'G') && (c == 'G' <==> Comp(c) == 'C')
    ensures forall c :: c !in "ATCG" ==> Comp(c) == c
    ensures RevCom(RevCom(s)) == s
  {
    var r := RevCom(RevCom(s));
    forall i | 0 <= i < |s| ensures r[i] == s[i] {
      assert Comp(Comp(s[i])) == s[i];
    }
  }

  lemma ReverseReverse(s: string)
    ensures Reverse(Reverse(s)) == s
  {
  }

  // ---------------------------------------------------------------------------
  // Literal matching: `in`, `str.index`, `str.count`, `re.finditer`

  /** `p` occurs in `s` at position `j`. */
  predicate Occurs(s: string, p: string, j: int) {
    0 <= j && j + |p| <= |s| && s[j..j + |p|] == p
  }

  function FindFrom(s: string, p: string, i: nat): (r: Option<nat>)
    ensures r.Some? ==> r.value >= i && Occurs(s, p, r.value)
    ensures r.Some? ==> forall j :: i <= j < r.value ==> !Occurs(s, p, j)
    ensures r.None? ==> forall j :: i <= j ==> !Occurs(s, p, j)
    decreases |s| - i
  {
    if i + |p| > |s| then None
    else if s[i..i + |p|] == p then Some(i)
    else FindFrom(s, p, i + 1)
  }

  /** `s.index(p)` when `p in s`: the leftmost occurrence. */
  function Find(s: string, p: string): Option<nat> {
    FindFrom(s, p, 0)
  }

  /** The match positions of a left-to-right scan from `i` that resumes after
      each match, as `str.count` and `re.finditer` scan. */
  function MatchesFrom(s: string, p: string, i: nat): (r: seq<nat>)
    requires |p| > 0
    ensures forall k :: 0 <= k < |r| ==> r[k] >= i && Occurs(s, p, r[k])
    ensures forall k :: 0 <= k < |r| - 1 ==> r[k] + |p| <= r[k + 1]
    decreases |s| - i
  {
    if i + |p| > |s| then []
    else if s[i..i + |p|] == p then [i] + MatchesFrom(s, p, i + |p|)
    else MatchesFrom(s, p, i + 1)
  }

  function Matches(s: string, p: string): (r: seq<nat>)
    requires |p| > 0
    ensures forall k :: 0 <= k < |r| ==> r[k] < |s|
  {
    MatchesFrom(s, p, 0)
  }

  /** `s.count(p)`: the number of non-overlapping occurrences. */
  function Count(s: string, p: string): nat
    requires |p| > 0
  {
    |Matches(s, p)|
  }

  /** Some match of `r` (patterns of length `len`) overlaps position `j`. */
  ghost predicate Overlapped(r: seq<nat>, j: int, len: nat) {
    exists k :: 0 <= k < |r| && r[k] <= j < r[k] + len
  }

  /** The scan misses nothing: every occurrence from `i` on overlaps a match,
      so the matches are a maximal set of non-overlapping occurrences. */
  lemma {:induction false} MatchesCover(s: string, p: string, i: nat, j: int)
    requires |p| > 0 && j >= i && Occurs(s, p, j)
    ensures Overlapped(MatchesFrom(s, p, i), j, |p|)
    decreases |s| - i
  {
    assert i + |p| <= |s|;
    if s[i..i + |p|] == p {
      var rest := MatchesFrom(s, p, i + |p|);
      assert MatchesFrom(s, p, i) == [i] + rest;
      if j >= i + |p| {
        MatchesCover(s, p, i + |p|, j);
        OverlappedCons(i, rest, j, |p|);
      } else {
        assert ([i] + rest)[0] <= j < ([i] + rest)[0] + |p|;
      }
    } else {
      assert j != i;
      MatchesCover(s, p, i + 1, j);
    }
  }

  /** A position overlapped by a match of `rest` is still overlapped after
      another match is put in front. */
  lemma OverlappedCons(m: nat, rest: seq<nat>, j: int, len: nat)
    requires Overlapped(rest, j, len)
    ensures Overlapped([m] + rest, j, len)
  {
    var k :| 0 <= k < |rest| && rest[k] <= j < rest[k] + len;
    assert ([m] + rest)[k + 1] == rest[k];
  }

  /** The first match of the scan is the leftmost occurrence, so `p in s`
      exactly when the count is positive. */
  lemma {:induction false} FirstMatchIsFind(s: string, p: string, i: nat)
    requires |p| > 0
    ensures MatchesFrom(s, p, i) != [] <==> FindFrom(s, p, i).Some?
    ensures MatchesFrom(s, p, i) != [] ==> MatchesFrom(s, p, i)[0] == FindFrom(s, p, i).value
    decreases |s| - i
  {
    if i + |p| <= |s| && s[i..i + |p|] != p {
      FirstMatchIsFind(s, p, i + 1);
    }
  }

  /** An occurrence read backwards is an occurrence of the reversed pattern
      in the reversed string, at the mirrored position. */
  lemma ReverseOccurs(s: string, p: string, j: int)
    requires 0 <= j && j + |p| <= |s|
    ensures Occurs(s, p, j) <==> Occurs(Reverse(s), Reverse(p), |s| - j - |p|)
  {
    var rs, rp, m := Reverse(s), Reverse(p), |s| - j - |p|;
    var a, b := s[j..j + |p|], rs[m..m + |p|];
    forall t | 0 <= t < |p| ensures b[t] == a[|p| - 1 - t] {
      assert b[t] == rs[m + t] == s[|s| - 1 - (m + t)];
    }
    if a == p {
      forall t | 0 <= t < |p| ensures b[t] == rp[t] { }
      assert b == rp;
    }
    if b == rp {
      forall t | 0 <= t < |p| ensures a[t] == p[t] {
        assert b[|p| - 1 - t] == rp[|p| - 1 - t];
      }
      assert a == p;
    }
  }

  /** Searching the reversed string for the reversed pattern finds the
      rightmost occurrence: when it stops at `i`, the pattern occurs at
      `|s| - i - |p|` and nowhere to the right of it; it finds something
      exactly when the pattern occurs at all. */
  lemma RightmostByReversal(s: string, p: string)
    ensures Find(s, p).Some? <==> Find(Reverse(s), Reverse(p)).Some?
    ensures Find(Reverse(s), Reverse(p)).Some? ==>
      var j := |s| - Find(Reverse(s), Reverse(p)).value - |p|;
      Occurs(s, p, j) && forall j' :: j < j' ==> !Occurs(s, p, j')
  {
    var rs, rp := Reverse(s), Reverse(p);
    ReverseReverse(s);
    ReverseReverse(p);
    match Find(rs, rp)
    case Some(i) =>
      var j := |s| - i - |p|;
      ReverseOccurs(s, p, j);
      forall j' | j < j' ensures !Occurs(s, p, j') {
        if Occurs(s, p, j') {
          ReverseOccurs(s, p, j');
        }
      }
    case None =>
      if Find(s, p).Some? {
        ReverseOccurs(s, p, Find(s, p).value);
      }
  }

  // ---------------------------------------------------------------------------
  // find_repeat: the numbers reported for one contig

  /** `seq_len`, `nrepeats`, `start_pos` and `end_pos` of one contig; a
      position is absent where the script reports `NA`. */
  datatype RepeatStats = RepeatStats(seqLen: nat, nrepeats: nat, startPos: Option<nat>, endPos: Option<int>)

  function Stats(s: string, repeat: string): (r: RepeatStats)
    requires |repeat| > 0
  {
    var forward := repeat + repeat;
    var reverse := RevCom(repeat) + RevCom(repeat);
    RevComMeaning(repeat);
    RepeatStats(
      |s|,
      Count(s, forward) + Count(s, reverse),
      if Find(s, forward).Some? then Some(Find(s, forward).value + 1) else None,
      if Find(s, reverse).Some? then
        RightmostByReversal(s, reverse);
        Some(|s| - (Find(Reverse(s), Reverse(reverse)).value + 1))
      else None)
  }

  /** What the report means: the repeat count adds the non-overlapping
      doubled forward repeats and doubled reverse-complement repeats;
      `start_pos` is the 1-based start of the leftmost doubled forward repeat;
      `end_pos` is the 0-based position of the last base of the rightmost
      doubled reverse-complement repeat; each is absent exactly when there is
      no such occurrence. */
  lemma StatsMeaning(s: string, repeat: string)
    requires |repeat| > 0
    ensures var st := Stats(s, repeat);
      var forward := repeat + repeat;
      var reverse := RevCom(repeat) + RevCom(repeat);
      && |reverse| == |forward|
      && st.nrepeats == |Matches(s, forward)| + |Matches(s, reverse)|
      && (st.startPos.Some? <==> exists j :: Occurs(s, forward, j))
      && (st.startPos.Some? ==>
            Occurs(s, forward, st.startPos.value - 1) && forall j :: 0 <= j < st.startPos.value - 1 ==> !Occurs(s, forward, j))
      && (st.endPos.Some? <==> exists j :: Occurs(s, reverse, j))
      && (st.endPos.Some? ==>
            var j := st.endPos.value - |reverse| + 1;
            Occurs(s, reverse, j) && forall j' :: j < j' ==> !Occurs(s, reverse, j'))
  {
    var forward := repeat + repeat;
    var reverse := RevCom(repeat) + RevCom(repeat);
    RevComMeaning(repeat);
    RightmostByReversal(s, reverse);
    var st := Stats(s, repeat);
    if st.startPos.Some? {
      assert Occurs(s, forward, Find(s, forward).value);
    }
    if st.endPos.Some? {
      var i := Find(Reverse(s), Reverse(reverse)).value;
      assert st.endPos.value - |reverse| + 1 == |s| - i - |reverse|;
      assert Occurs(s, reverse, Find(s, reverse).value);
    }
  }

  // ---------------------------------------------------------------------------
  // get_hist

  /** The histogram bin of a match at `m` in a sequence of length `n`. */
  function Bin(m: nat, n: nat): (b: nat)
    requires m < n
    ensures b < 100
  {
    BinBelow100(m, n);
    m * 100 / n
  }

  lemma BinBelow100(m: nat, n: nat)
    requires m < n
    ensures m * 100 / n < 100
  {
    var q := m * 100 / n;
    if q >= 100 {
      MultiplyAtLeast(q, 100, n);
      assert false;
    }
  }

  lemma MultiplyAtLeast(a: int, m: int, s: int)
    requires a >= m && s > 0
    ensures a * s >= m * s
  {
  }

  /** The 100 bin counts of the matches `ms`. */
  function Histogram(ms: seq<nat>, n: nat): (h: seq<nat>)
    requires forall k :: 0 <= k < |ms| ==> ms[k] < n
    ensures |h| == 100
  {
    if ms == [] then seq(100, b => 0)
    else
      var h := Histogram(ms[..|ms| - 1], n);
      var b := Bin(ms[|ms| - 1], n);
      h[b := h[b] + 1]
  }

  function Sum(h: seq<nat>): nat {
    if h == [] then 0 else Sum(h[..|h| - 1]) + h[|h| - 1]
  }

  lemma {:induction false} SumIncrement(h: seq<nat>, b: nat)
    requires b < |h|
    ensures Sum(h[b := h[b] + 1]) == Sum(h) + 1
  {
    var h' := h[b := h[b] + 1];
    if b < |h| - 1 {
      assert h'[..|h| - 1] == h[..|h| - 1][b := h[b] + 1];
      SumIncrement(h[..|h| - 1], b);
    } else {
      assert h'[..|h| - 1] == h[..|h| - 1];
    }
  }

  lemma {:induction false} SumZeros(k: nat)
    ensures Sum(seq(k, b => 0)) == 0
  {
    if k > 0 {
      assert seq(k, b => 0)[..k - 1] == seq(k - 1, b => 0);
      SumZeros(k - 1);
    }
  }

  /** The bin counts add up to the number of matches. */
  lemma {:induction false} HistogramSum(ms: seq<nat>, n: nat)
    requires forall k :: 0 <= k < |ms| ==> ms[k] < n
    ensures Sum(Histogram(ms, n)) == |ms|
  {
    if ms == [] {
      SumZeros(100);
    } else {
      HistogramSum(ms[..|ms| - 1], n);
      SumIncrement(Histogram(ms[..|ms| - 1], n), Bin(ms[|ms| - 1], n));
    }
  }

  /** `max(hist)`. */
  function MaxOf(h: seq<nat>): (r: nat)
    requires h != []
    ensures r in h && forall i :: 0 <= i < |h| ==> h[i] <= r
  {
    if |h| == 1 then h[0]
    else
      var m := MaxOf(h[..|h| - 1]);
      assert forall i :: 0 <= i < |h| - 1 ==> h[i] == h[..|h| - 1][i];
      if h[|h| - 1] > m then h[|h| - 1] else m
  }

  /** The text handed to the plot: one `bin<TAB>count` line per bin, bins numbered from 1. */
  function HistText(h: seq<nat>): string {
    if h == [] then []
    else HistText(h[..|h| - 1]) + IntToString(|h|) + "\t" + IntToString(h[|h| - 1]) + "\n"
  }

  /** `get_hist`: counts the matches of `repeat` in each hundredth of the
      sequence and returns the histogram as text with its largest count. */
  method GetHist(s: string, repeat: string) returns (text: string, maxCount: nat)
    requires |repeat| > 0
    ensures text == HistText(Histogram(Matches(s, repeat), |s|))
    ensures maxCount == MaxOf(Histogram(Matches(s, repeat), |s|))
  {
    var ms := Matches(s, repeat);
    var hist := new nat[100](b => 0);
    assert hist[..] == Histogram(ms[..0], |s|);
    for k := 0 to |ms|
      invariant hist[..] == Histogram(ms[..k], |s|)
    {
      assert ms[..k + 1][..k] == ms[..k];
      var b := ms[k] * 100 / |s|;
      assert b == Bin(ms[k], |s|);
      hist[b] := hist[b] + 1;
    }
    assert ms[..|ms|] == ms;
    text := HistText(hist[..]);
    maxCount := MaxOf(hist[..]);
  }

  // ---------------------------------------------------------------------------
  // parse_genome

  /** A FASTA header line. It cannot be blank, since it starts with `>`. */
  predicate IsHeader(line: string) {
    StartsWith(line, ">")
  }

  /** The sequence ID of a header: its first whitespace-separated token without the `>`. */
  function HeaderId(line: string): string
    requires IsHeader(line)
  {
    assert line[0] == line[..1][0];
    SplitFirstToken(line);
    Split(line)[0][1..]
  }

  /** A sequence line as stored: `line.strip().upper()`. */
  function Piece(line: string): string {
    Upper(Strip(line))
  }

  /** What the line loop makes of a line. */
  datatype FastaLine = Blank | Header(id: string) | Bases(piece: string)

  /** A blank line is skipped; a line starting with `>` is a header whose ID
      is its first token without the `>`; any other line is a sequence line,
      whose piece is the stripped, upper-cased line and is never empty. */
  function Classify(line: string): (r: FastaLine)
    ensures r.Blank? <==> IsBlank(line)
    ensures r.Header? <==> !IsBlank(line) && StartsWith(line, ">")
    ensures r.Header? ==> Split(line) != [] && Split(line)[0] == ">" + r.id
    ensures r.Bases? ==> r.piece == Upper(Strip(line)) && r.piece != []
  {
    if IsBlank(line) then Blank
    else if IsHeader(line) then
      assert line[0] == line[..1][0];
      SplitFirstToken(line);
      var t := Split(line)[0];
      assert t == [t[0]] + t[1..];
      Header(HeaderId(line))
    else
      StripNonBlank(line);
      Bases(Piece(line))
  }

  function ClassifyAll(lines: seq<string>): (rows: seq<FastaLine>)
    ensures |rows| == |lines| && forall i :: 0 <= i < |lines| ==> rows[i] == Classify(lines[i])
  {
    seq(|lines|, i requires 0 <= i < |lines| => Classify(lines[i]))
  }

  /** `contigs is None or ID in contigs`. */
  predicate Selected(contigs: Option<seq<string>>, id: string) {
    contigs.None? || id in contigs.value
  }

  /** `''.join(parts)`. */
  function Concat(parts: seq<string>): string {
    if parts == [] then [] else Concat(parts[..|parts| - 1]) + parts[|parts| - 1]
  }

  /** The state of the line loop: `fa_dict` (lists of pieces), `output` and `ID`. */
  datatype Scan = Scan(fa: Dict<string, seq<string>>, output: bool, id: string)

  ghost predicate Writable(st: Scan) {
    && UniqueKeys(st.fa)
    && (st.output ==> Get(st.fa, st.id).Some?)
  }

  /** One line: a header of a selected ID (re)starts its entry and switches
      output on, a header of any other ID switches it off, and a sequence
      line is appended to the current entry while output is on. */
  function Step(st: Scan, row: FastaLine, contigs: Option<seq<string>>): (r: Scan)
    requires Writable(st)
    ensures Writable(r)
  {
    match row
    case Blank => st
    case Header(id) =>
      if Selected(contigs, id) then Scan(Put(st.fa, id, []), true, id)
      else Scan(st.fa, false, id)
    case Bases(piece) =>
      if st.output then Scan(Put(st.fa, st.id, Get(st.fa, st.id).value + [piece]), true, st.id)
      else st
  }

  function ScanRows(rows: seq<FastaLine>, contigs: Option<seq<string>>): (r: Scan)
    ensures Writable(r)
  {
    if rows == [] then Scan([], false, "")
    else Step(ScanRows(rows[..|rows| - 1], contigs), rows[|rows| - 1], contigs)
  }

  /** `for ID in fa_dict: fa_dict[ID] = ''.join(fa_dict[ID])`. */
  function JoinAll(fa: Dict<string, seq<string>>): (r: Dict<string, string>)
    ensures |r| == |fa| && forall i :: 0 <= i < |fa| ==> r[i] == (fa[i].0, Concat(fa[i].1))
  {
    seq(|fa|, i requires 0 <= i < |fa| => (fa[i].0, Concat(fa[i].1)))
  }

  /** The dictionary `parse_genome` returns. */
  function Genome(lines: seq<string>, contigs: Option<seq<string>>): Dict<string, string> {
    JoinAll(ScanRows(ClassifyAll(lines), contigs).fa)
  }

  /** `parse_genome` over the lines of the FASTA file. */
  method ParseGenome(lines: seq<string>, contigs: Option<seq<string>>) returns (faDict: Dict<string, string>)
    ensures faDict == Genome(lines, contigs)
  {
    var fa := ReadEntries(lines, contigs);
    faDict := JoinEntries(fa);
  }

  /** The line loop of `parse_genome`. */
  method ReadEntries(lines: seq<string>, contigs: Option<seq<string>>) returns (fa: Dict<string, seq<string>>)
    ensures fa == ScanRows(ClassifyAll(lines), contigs).fa
  {
    var output := false;
    var id := "";
    fa := [];
    ghost var rows := ClassifyAll(lines);
    for n := 0 to |lines|
      invariant Scan(fa, output, id) == ScanRows(rows[..n], contigs)
    {
      assert rows[..n + 1][..n] == rows[..n] && rows[..n + 1][n] == Classify(lines[n]);
      fa, output, id := ReadLine(fa, output, id, lines[n], contigs);
    }
    assert rows[..|lines|] == rows;
  }

  /** One pass of the line loop of `parse_genome`. */
  method ReadLine(fa: Dict<string, seq<string>>, output: bool, id: string, line: string, contigs: Option<seq<string>>)
    returns (fa': Dict<string, seq<string>>, output': bool, id': string)
    requires Writable(Scan(fa, output, id))
    ensures Scan(fa', output', id') == Step(Scan(fa, output, id), Classify(line), contigs)
  {
    fa', output', id' := fa, output, id;
    if IsBlank(line) {
      return;
    }
    if IsHeader(line) {
      id' := HeaderId(line);
      if Selected(contigs, id') {
        fa' := Put(fa, id', []);
        output' := true;
      } else {
        output' := false;
      }
    } else if output {
      fa' := Put(fa, id, Get(fa, id).value + [Piece(line)]);
    }
  }

  /** The joining loop of `parse_genome`. */
  method JoinEntries(fa: Dict<string, seq<string>>) returns (faDict: Dict<string, string>)
    ensures faDict == JoinAll(fa)
  {
    faDict := [];
    for i := 0 to |fa|
      invariant faDict == JoinAll(fa[..i])
    {
      faDict := faDict + [(fa[i].0, Concat(fa[i].1))];
    }
    assert fa[..|fa|] == fa;
  }

  // What `parse_genome` returns, stated without the loop state.

  /** The index of the last header of `id`, if any. */
  function LastHeader(rows: seq<FastaLine>, id: string): (r: Option<nat>)
    ensures r.Some? ==> r.value < |rows| && rows[r.value] == Header(id)
  {
    if rows == [] then None
    else if rows[|rows| - 1] == Header(id) then Some(|rows| - 1)
    else LastHeader(rows[..|rows| - 1], id)
  }

  /** The index of the last header of any ID, if any. */
  function LastAnyHeader(rows: seq<FastaLine>): (r: Option<nat>)
    ensures r.Some? ==> r.value < |rows| && rows[r.value].Header?
  {
    if rows == [] then None
    else if rows[|rows| - 1].Header? then Some(|rows| - 1)
    else LastAnyHeader(rows[..|rows| - 1])
  }

  /** The pieces of the sequence lines of `rest` before its first header. */
  function Section(rest: seq<FastaLine>): seq<string> {
    if rest == [] || rest[0].Header? then []
    else (if rest[0].Bases? then [rest[0].piece] else []) + Section(rest[1..])
  }

  predicate NoHeader(rest: seq<FastaLine>) {
    forall t :: 0 <= t < |rest| ==> !rest[t].Header?
  }

  lemma {:induction false} SectionSnoc(rest: seq<FastaLine>, row: FastaLine)
    ensures Section(rest + [row]) ==
      Section(rest) + (if NoHeader(rest) && row.Bases? then [row.piece] else [])
  {
    if rest == [] {
      assert [row][1..] == [];
    } else {
      assert (rest + [row])[0] == rest[0] && (rest + [row])[1..] == rest[1..] + [row];
      if !rest[0].Header? {
        SectionSnoc(rest[1..], row);
        assert NoHeader(rest) <==> NoHeader(rest[1..]) by {
          if NoHeader(rest[1..]) {
            forall t | 0 <= t < |rest| ensures !rest[t].Header? {
              if t > 0 { assert rest[t] == rest[1..][t - 1]; }
            }
          }
        }
      } else {
        assert !NoHeader(rest);
      }
    }
  }

  /** The entry `parse_genome` holds for `id` after `rows`: present exactly
      when the ID is selected and has a header, holding the pieces that follow
      its last header. */
  ghost function Expected(rows: seq<FastaLine>, contigs: Option<seq<string>>, id: string): Option<seq<string>> {
    if Selected(contigs, id) && LastHeader(rows, id).Some?
    then Some(Section(rows[LastHeader(rows, id).value + 1..]))
    else None
  }

  /** What the scan state means after `rows`: output is on exactly when
      the last header names a selected ID, which is then the current ID, and
      every entry is the expected one. */
  ghost predicate Meaning(rows: seq<FastaLine>, st: Scan, contigs: Option<seq<string>>) {
    var h := LastAnyHeader(rows);
    && (st.output <==> h.Some? && Selected(contigs, rows[h.value].id))
    && (st.output ==> st.id == rows[h.value].id)
    && forall id :: Get(st.fa, id) == Expected(rows, contigs, id)
  }

  /** The last header of an ID is followed by no header exactly when it is
      the last header of all. */
  ghost predicate HeadersAgree(rows: seq<FastaLine>, id: string) {
    && (LastAnyHeader(rows).None? ==> LastHeader(rows, id).None? && NoHeader(rows))
    && (LastAnyHeader(rows).Some? ==> NoHeader(rows[LastAnyHeader(rows).value + 1..]))
    && (LastAnyHeader(rows).Some? && rows[LastAnyHeader(rows).value] == Header(id) ==>
          LastHeader(rows, id) == LastAnyHeader(rows))
    && (LastHeader(rows, id).Some? ==>
          (NoHeader(rows[LastHeader(rows, id).value + 1..]) <==> LastHeader(rows, id) == LastAnyHeader(rows)))
  }

  lemma {:induction false} LastHeaders(rows: seq<FastaLine>, id: string)
    ensures HeadersAgree(rows, id)
  {
    if rows != [] {
      var front := rows[..|rows| - 1];
      var last := rows[|rows| - 1];
      assert rows == front + [last];
      LastHeaders(front, id);
      if last.Header? {
        HeadersAgreeAfterHeader(front, last, id);
      } else {
        HeadersAgreeAfterLine(front, last, id);
      }
    }
  }

  lemma HeadersAgreeAfterLine(front: seq<FastaLine>, last: FastaLine, id: string)
    requires !last.Header? && HeadersAgree(front, id)
    ensures HeadersAgree(front + [last], id)
  {
    var rows := front + [last];
    assert rows[..|rows| - 1] == front;
    var h, l := LastAnyHeader(front), LastHeader(front, id);
    assert LastAnyHeader(rows) == h && LastHeader(rows, id) == l;
    if h.None? {
      NoHeaderSnoc(front, last, 0);
      assert rows[0..] == rows && front[0..] == front;
    } else {
      NoHeaderSnoc(front, last, h.value + 1);
      assert rows[h.value] == front[h.value];
    }
    if l.Some? {
      NoHeaderSnoc(front, last, l.value + 1);
    }
  }

  lemma HeadersAgreeAfterHeader(front: seq<FastaLine>, last: FastaLine, id: string)
    requires last.Header? && HeadersAgree(front, id)
    ensures HeadersAgree(front + [last], id)
  {
    var rows := front + [last];
    assert rows[..|rows| - 1] == front;
    if LastHeader(rows, id).Some? && LastHeader(rows, id).value < |front| {
      var i := LastHeader(rows, id).value;
      assert rows[i + 1..][|rows| - 1 - (i + 1)] == last;
    }
  }

  lemma NoHeaderSnoc(front: seq<FastaLine>, last: FastaLine, i: nat)
    requires !last.Header? && i <= |front|
    ensures NoHeader((front + [last])[i..]) <==> NoHeader(front[i..])
  {
    var a, b := (front + [last])[i..], front[i..];
    assert a == b + [last];
    if NoHeader(b) {
      forall t | 0 <= t < |a| ensures !a[t].Header? {
        if t < |b| { assert a[t] == b[t]; }
      }
    }
    if NoHeader(a) {
      forall t | 0 <= t < |b| ensures !b[t].Header? { assert a[t] == b[t]; }
    }
  }

  lemma ExpectedAt(rows: seq<FastaLine>, contigs: Option<seq<string>>, id: string, i: nat)
    requires Selected(contigs, id) && LastHeader(rows, id) == Some(i)
    ensures Expected(rows, contigs, id) == Some(Section(rows[i + 1..]))
  {
  }

  /** A sequence or blank line extends the entry of the ID of the last
      header, when it is selected and the line holds bases, and no other. */
  lemma SequenceLineExpected(rows: seq<FastaLine>, row: FastaLine, contigs: Option<seq<string>>, id: string)
    requires !row.Header?
    ensures LastAnyHeader(rows + [row]) == LastAnyHeader(rows)
    ensures Expected(rows + [row], contigs, id) ==
      if Expected(rows, contigs, id).Some? && LastHeader(rows, id) == LastAnyHeader(rows) && row.Bases?
      then Some(Expected(rows, contigs, id).value + [row.piece])
      else Expected(rows, contigs, id)
  {
    var rows' := rows + [row];
    assert rows'[..|rows|] == rows;
    var li := LastHeader(rows, id);
    assert LastHeader(rows', id) == li;
    LastHeaders(rows, id);
    if Selected(contigs, id) && li.Some? {
      var i := li.value;
      ExpectedAt(rows', contigs, id, i);
      ExpectedAt(rows, contigs, id, i);
      SectionAfter(rows, row, i);
    }
  }

  /** A line that is not a header adds its piece to the section after `i`
      exactly when no header follows `i` and the line holds bases. */
  lemma SectionAfter(rows: seq<FastaLine>, row: FastaLine, i: nat)
    requires i < |rows|
    ensures Section((rows + [row])[i + 1..]) ==
      if NoHeader(rows[i + 1..]) && row.Bases? then Section(rows[i + 1..]) + [row.piece]
      else Section(rows[i + 1..])
  {
    var rest := rows[i + 1..];
    assert (rows + [row])[i + 1..] == rest + [row];
    SectionSnoc(rest, row);
    assert Section(rest) + [] == Section(rest);
  }

  /** A header starts the entry of its ID afresh, when selected, and leaves
      every other entry alone. */
  lemma HeaderLineExpected(rows: seq<FastaLine>, hid: string, contigs: Option<seq<string>>, id: string)
    ensures LastAnyHeader(rows + [Header(hid)]) == Some(|rows|)
    ensures Expected(rows + [Header(hid)], contigs, id) ==
      if id == hid then (if Selected(contigs, id) then Some([]) else None)
      else Expected(rows, contigs, id)
  {
    var rows' := rows + [Header(hid)];
    assert rows'[..|rows|] == rows && rows'[|rows|] == Header(hid);
    if id == hid {
      assert LastHeader(rows', id) == Some(|rows|);
      assert rows'[|rows| + 1..] == [];
    } else {
      OtherHeaderExpected(rows, hid, contigs, id);
    }
  }

  /** A header of another ID leaves the entry of `id` alone. */
  lemma OtherHeaderExpected(rows: seq<FastaLine>, hid: string, contigs: Option<seq<string>>, id: string)
    requires id != hid
    ensures Expected(rows + [Header(hid)], contigs, id) == Expected(rows, contigs, id)
  {
    var rows' := rows + [Header(hid)];
    assert rows'[..|rows|] == rows && rows'[|rows|] == Header(hid);
    var li := LastHeader(rows, id);
    assert LastHeader(rows', id) == li;
    if Selected(contigs, id) && li.Some? {
      var i := li.value;
      var rest := rows[i + 1..];
      assert rows'[i + 1..] == rest + [Header(hid)];
      ExpectedAt(rows', contigs, id, i);
      ExpectedAt(rows, contigs, id, i);
      SectionSnoc(rest, Header(hid));
      assert Section(rest) + [] == Section(rest);
    }
  }

  /** One more line keeps the meaning of the scan state. */
  lemma StepMeaning(rows: seq<FastaLine>, row: FastaLine, contigs: Option<seq<string>>)
    requires Meaning(rows, ScanRows(rows, contigs), contigs)
    ensures Meaning(rows + [row], Step(ScanRows(rows, contigs), row, contigs), contigs)
  {
    var rows' := rows + [row];
    var st := ScanRows(rows, contigs);
    var st' := Step(st, row, contigs);
    var h := LastAnyHeader(rows);
    if row.Header? {
      assert rows'[|rows|] == row;
      forall id ensures Get(st'.fa, id) == Expected(rows', contigs, id) {
        HeaderLineExpected(rows, row.id, contigs, id);
      }
      HeaderLineExpected(rows, row.id, contigs, row.id);
    } else {
      SequenceLineExpected(rows, row, contigs, "");
      assert h.Some? ==> rows'[h.value] == rows[h.value];
      forall id ensures Get(st'.fa, id) == Expected(rows', contigs, id) {
        SequenceLineExpected(rows, row, contigs, id);
        LastHeaders(rows, id);
      }
    }
  }

  /** What `parse_genome` records, by induction over the lines. */
  lemma {:induction false} ScanMeaning(rows: seq<FastaLine>, contigs: Option<seq<string>>)
    ensures Meaning(rows, ScanRows(rows, contigs), contigs)
  {
    if rows != [] {
      var front := rows[..|rows| - 1];
      ScanMeaning(front, contigs);
      StepMeaning(front, rows[|rows| - 1], contigs);
      assert front + [rows[|rows| - 1]] == rows;
    }
  }

  lemma {:induction false} IndexOfJoinAll(fa: Dict<string, seq<string>>, id: string)
    ensures IndexOf(JoinAll(fa), id) == IndexOf(fa, id)
  {
    if fa != [] {
      assert JoinAll(fa)[1..] == JoinAll(fa[1..]);
      IndexOfJoinAll(fa[1..], id);
    }
  }

  /** Joining keeps every ID at its position and maps it to the concatenation
      of its pieces. */
  lemma JoinAllLookup(fa: Dict<string, seq<string>>)
    ensures Keys(JoinAll(fa)) == Keys(fa)
    ensures forall id :: IndexOf(JoinAll(fa), id) == IndexOf(fa, id)
    ensures forall id :: Get(JoinAll(fa), id)
                         == (if Get(fa, id).Some? then Some(Concat(Get(fa, id).value)) else None)
  {
    forall id ensures IndexOf(JoinAll(fa), id) == IndexOf(fa, id) {
      IndexOfJoinAll(fa, id);
    }
  }

  /** The sequence expected for `id`: its expected pieces, joined. */
  ghost function ExpectedSequence(lines: seq<string>, contigs: Option<seq<string>>, id: string): Option<string> {
    match Expected(ClassifyAll(lines), contigs, id)
    case None => None
    case Some(parts) => Some(Concat(parts))
  }

  /** `parse_genome` returns one entry per selected ID that has a header,
      with distinct IDs; the sequence of an ID is the concatenation of the
      stripped, upper-cased, non-blank lines that follow its last header up
      to the next header; IDs that are not selected or have no header are
      absent. */
  lemma GenomeContents(lines: seq<string>, contigs: Option<seq<string>>)
    ensures UniqueKeys(Genome(lines, contigs))
    ensures forall id :: Get(Genome(lines, contigs), id) == ExpectedSequence(lines, contigs, id)
  {
    var rows := ClassifyAll(lines);
    var fa := ScanRows(rows, contigs).fa;
    ScanMeaning(rows, contigs);
    forall id ensures Get(Genome(lines, contigs), id) == ExpectedSequence(lines, contigs, id) {
      IndexOfJoinAll(fa, id);
    }
    assert UniqueKeys(fa);
  }

  /** The index of the first header of `id`, if any. */
  function FirstHeader(rows: seq<FastaLine>, id: string): (r: Option<nat>)
    ensures r.Some? ==> r.value < |rows| && rows[r.value] == Header(id)
    ensures r.Some? ==> forall k :: 0 <= k < r.value ==> rows[k] != Header(id)
    ensures r.None? ==> forall k :: 0 <= k < |rows| ==> rows[k] != Header(id)
  {
    if rows == [] then None
    else
      var f := FirstHeader(rows[..|rows| - 1], id);
      if f.Some? then f
      else if rows[|rows| - 1] == Header(id) then Some(|rows| - 1)
      else None
  }

  /** The keys `ks` are the selected IDs that have a header, ordered by their
      first header. */
  ghost predicate InHeaderOrder(rows: seq<FastaLine>, ks: seq<string>, contigs: Option<seq<string>>) {
    && (forall id :: id in ks <==> Selected(contigs, id) && FirstHeader(rows, id).Some?)
    && (forall i, j :: 0 <= i < j < |ks| ==>
          FirstHeader(rows, ks[i]).Some? && FirstHeader(rows, ks[j]).Some?
          && FirstHeader(rows, ks[i]).value < FirstHeader(rows, ks[j]).value)
  }

  /** A later line never moves the first header of an ID that already has one. */
  lemma FirstHeaderSnoc(rows: seq<FastaLine>, row: FastaLine, id: string)
    ensures FirstHeader(rows + [row], id) ==
      if FirstHeader(rows, id).Some? then FirstHeader(rows, id)
      else if row == Header(id) then Some(|rows|) else None
  {
    assert (rows + [row])[..|rows|] == rows;
  }

  /** One more line keeps the keys in order of first header. */
  lemma {:induction false} StepKeyOrder(rows: seq<FastaLine>, row: FastaLine, st: Scan, contigs: Option<seq<string>>)
    requires Writable(st) && InHeaderOrder(rows, Keys(st.fa), contigs)
    ensures InHeaderOrder(rows + [row], Keys(Step(st, row, contigs).fa), contigs)
  {
    var ks, ks' := Keys(st.fa), Keys(Step(st, row, contigs).fa);
    forall id ensures FirstHeader(rows + [row], id) ==
      if FirstHeader(rows, id).Some? then FirstHeader(rows, id)
      else if row == Header(id) then Some(|rows|) else None {
      FirstHeaderSnoc(rows, row, id);
    }
    if row.Header? && Selected(contigs, row.id) {
      PutKeys(st.fa, row.id, []);
    } else if row.Bases? && st.output {
      assert st.id in ks by { assert Keys(st.fa)[IndexOf(st.fa, st.id).value] == st.id; }
      PutKeys(st.fa, st.id, Get(st.fa, st.id).value + [row.piece]);
    }
  }

  lemma {:induction false} ScanKeyOrder(rows: seq<FastaLine>, contigs: Option<seq<string>>)
    ensures InHeaderOrder(rows, Keys(ScanRows(rows, contigs).fa), contigs)
  {
    if rows != [] {
      var front := rows[..|rows| - 1];
      ScanKeyOrder(front, contigs);
      StepKeyOrder(front, rows[|rows| - 1], ScanRows(front, contigs), contigs);
      assert front + [rows[|rows| - 1]] == rows;
    }
  }

  /** The IDs of `parse_genome`'s dictionary, in its order: every selected ID
      that has a header, each once, in the order of its first header (a later
      header of the same ID resets its sequence but keeps its place). This is
      the order the report follows when no contig list is given. */
  lemma GenomeKeyOrder(lines: seq<string>, contigs: Option<seq<string>>)
    ensures InHeaderOrder(ClassifyAll(lines), Keys(Genome(lines, contigs)), contigs)
  {
    var fa := ScanRows(ClassifyAll(lines), contigs).fa;
    ScanKeyOrder(ClassifyAll(lines), contigs);
    assert Keys(JoinAll(fa)) == Keys(fa);
  }

  // ---------------------------------------------------------------------------
  // find_repeat: the loop over the contigs

  datatype TelomereError = MissingSequence(id: string)  // `fa_dict[ID]` for an ID the genome lacks

  /** `ID_list`: the given contigs, in the order given, or every ID read. */
  function IdList(fa: Dict<string, string>, contigs: Option<seq<string>>): seq<string> {
    if contigs.None? then Keys(fa) else contigs.value
  }

  /** The numbers reported for each ID in turn, or the first ID without a sequence. */
  function Reports(fa: Dict<string, string>, repeat: string, ids: seq<string>): Result<seq<(string, RepeatStats)>, TelomereError>
    requires |repeat| > 0
  {
    if ids == [] then Ok([])
    else
      var rs :- Reports(fa, repeat, ids[..|ids| - 1]);
      var id := ids[|ids| - 1];
      match Get(fa, id)
      case None => Err(MissingSequence(id))
      case Some(s) => Ok(rs + [(id, Stats(s, repeat))])
  }

  /** Reporting one more ID reports its sequence after the IDs before it. */
  lemma ReportsNext(fa: Dict<string, string>, repeat: string, ids: seq<string>, i: nat)
    requires |repeat| > 0 && i < |ids|
    ensures Reports(fa, repeat, ids[..i + 1]) ==
      var rs :- Reports(fa, repeat, ids[..i]);
      if Get(fa, ids[i]).None? then Err(MissingSequence(ids[i]))
      else Ok(rs + [(ids[i], Stats(Get(fa, ids[i]).value, repeat))])
  {
    assert ids[..i + 1][..i] == ids[..i] && ids[..i + 1][i] == ids[i];
  }

  lemma {:induction false} ReportsErrorSticks(fa: Dict<string, string>, repeat: string, ids: seq<string>, n: nat)
    requires |repeat| > 0 && n <= |ids| && Reports(fa, repeat, ids[..n]).Err?
    ensures Reports(fa, repeat, ids) == Reports(fa, repeat, ids[..n])
    decreases |ids|
  {
    if n < |ids| {
      var front := ids[..|ids| - 1];
      assert front[..n] == ids[..n];
      ReportsErrorSticks(fa, repeat, front, n);
    } else {
      assert ids[..n] == ids;
    }
  }

  /** The reports fail exactly when some ID has no sequence; otherwise there
      is one per ID, in order, with the numbers of that ID's sequence. */
  lemma {:induction false} ReportsMeaning(fa: Dict<string, string>, repeat: string, ids: seq<string>)
    requires |repeat| > 0
    ensures Reports(fa, repeat, ids).Ok? <==> AllFound(fa, ids)
    ensures Reports(fa, repeat, ids).Ok? ==> Reported(fa, repeat, ids, Reports(fa, repeat, ids).value)
  {
    if ids != [] {
      var n := |ids| - 1;
      var front, id := ids[..n], ids[n];
      assert ids == front + [id];
      ReportsMeaning(fa, repeat, front);
      FoundSnoc(fa, front, id);
      if Reports(fa, repeat, ids).Ok? {
        ReportedSnoc(fa, repeat, front, id, Reports(fa, repeat, front).value);
      }
    }
  }

  /** Every ID of `ids` has a sequence. */
  predicate AllFound(fa: Dict<string, string>, ids: seq<string>) {
    forall i :: 0 <= i < |ids| ==> Get(fa, ids[i]).Some?
  }

  lemma FoundSnoc(fa: Dict<string, string>, ids: seq<string>, id: string)
    ensures AllFound(fa, ids + [id]) <==> AllFound(fa, ids) && Get(fa, id).Some?
  {
    var all := ids + [id];
    assert all[|ids|] == id;
    assert forall i :: 0 <= i < |ids| ==> all[i] == ids[i];
  }

  /** `rs` holds the report of every ID of `ids`, in order. */
  predicate Reported(fa: Dict<string, string>, repeat: string, ids: seq<string>, rs: seq<(string, RepeatStats)>)
    requires |repeat| > 0
  {
    && |rs| == |ids|
    && forall i :: 0 <= i < |ids| ==> Get(fa, ids[i]).Some? && rs[i] == (ids[i], Stats(Get(fa, ids[i]).value, repeat))
  }

  lemma ReportedSnoc(fa: Dict<string, string>, repeat: string, ids: seq<string>, id: string, rs: seq<(string, RepeatStats)>)
    requires |repeat| > 0 && Reported(fa, repeat, ids, rs) && Get(fa, id).Some?
    ensures Reported(fa, repeat, ids + [id], rs + [(id, Stats(Get(fa, id).value, repeat))])
  {
    var all, rs' := ids + [id], rs + [(id, Stats(Get(fa, id).value, repeat))];
    assert all[|ids|] == id && rs'[|ids|] == (id, Stats(Get(fa, id).value, repeat));
    assert forall i :: 0 <= i < |ids| ==> all[i] == ids[i] && rs'[i] == rs[i];
  }

  /** Without a contig list every ID read is reported, so `Reports` never fails. */
  lemma AllIdsReported(fa: Dict<string, string>, repeat: string)
    requires |repeat| > 0
    ensures Reports(fa, repeat, IdList(fa, None)).Ok?
  {
    var ids := Keys(fa);
    forall i | 0 <= i < |ids| ensures Get(fa, ids[i]).Some? {
      assert fa[i].0 == ids[i];
    }
    ReportsMeaning(fa, repeat, ids);
  }

  /** The counting part of `find_repeat`: the numbers of every ID in turn. */
  method FindRepeat(fa: Dict<string, string>, repeat: string, contigs: Option<seq<string>>)
    returns (r: Result<seq<(string, RepeatStats)>, TelomereError>)
    requires |repeat| > 0
    ensures r == Reports(fa, repeat, IdList(fa, contigs))
  {
    var ids := if contigs.None? then Keys(fa) else contigs.value;
    var reports: seq<(string, RepeatStats)> := [];
    for i := 0 to |ids|
      invariant Reports(fa, repeat, ids[..i]) == Ok(reports)
    {
      ReportsNext(fa, repeat, ids, i);
      var s := Get(fa, ids[i]);
      if s.None? {
        ReportsErrorSticks(fa, repeat, ids, i + 1);
        return Err(MissingSequence(ids[i]));
      }
      reports := reports + [(ids[i], Stats(s.value, repeat))];
    }
    assert ids[..|ids|] == ids;
    return Ok(reports);
  }
}
