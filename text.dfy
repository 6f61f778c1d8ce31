/**
  The handful of Python string operations the scripts rely on, stated over
  `string` (= `seq<char>`): `str.split()`, `str.strip()`, `str.startswith`,
  `str.upper()`, `sep.join(...)`, `int(...)` on a column and `'{}'.format(n)`
  on an integer. Whitespace is every character `str.isspace()` accepts;
  lines are given without their line terminator, which every
  caller strips or splits away anyway.
*/
module Text {
  import opened Outcomes

  /** The characters `str.isspace()` accepts, which are the ones `str.split()`
      and `str.strip()` split on and strip: `\t`, `\n`, `\v`, `\f`, `\r`,
      the separators `\x1c`-`\x1f`, the space, and the Unicode spaces. */
  predicate IsSpace(c: char) {
    || c == ' ' || '\t' <= c <= '\r' || '\U{1C}' <= c <= '\U{1F}'
    || c == '\U{85}' || c == '\U{A0}' || c == '\U{1680}' || '\U{2000}' <= c <= '\U{200A}'
    || c == '\U{2028}' || c == '\U{2029}' || c == '\U{202F}' || c == '\U{205F}' || c == '\U{3000}'
  }

  predicate NoSpace(s: string) {
    forall k :: 0 <= k < |s| ==> !IsSpace(s[k])
  }

  /** `not s.strip()`: the line holds nothing but whitespace. */
  predicate IsBlank(s: string) {
    forall k :: 0 <= k < |s| ==> IsSpace(s[k])
  }

  predicate StartsWith(s: string, prefix: string) {
    |prefix| <= |s| && s[..|prefix|] == prefix
  }

  // ---------------------------------------------------------------------------
  // str.split()

  /** Splitting state: `cur` is the token being read, `s` what is left of the line. */
  function SplitFrom(s: string, cur: string): seq<string>
    decreases |s|
  {
    if s == [] then
      (if cur == [] then [] else [cur])
    else if IsSpace(s[0]) then
      (if cur == [] then SplitFrom(s[1..], []) else [cur] + SplitFrom(s[1..], []))
    else
      SplitFrom(s[1..], cur + [s[0]])
  }

  /** `s.split()`: the maximal runs of non-whitespace characters, in order. */
  function Split(s: string): seq<string> {
    SplitFrom(s, [])
  }

  lemma {:induction false} SplitFromTokens(s: string, cur: string)
    requires NoSpace(cur)
    ensures forall t :: t in SplitFrom(s, cur) ==> |t| > 0 && NoSpace(t)
    ensures SplitFrom(s, cur) == [] <==> cur == [] && IsBlank(s)
    decreases |s|
  {
    if s == [] {
    } else if IsSpace(s[0]) {
      SplitFromTokens(s[1..], []);
      assert IsBlank(s) <==> IsBlank(s[1..]) by {
        if IsBlank(s[1..]) {
          forall k | 0 <= k < |s| ensures IsSpace(s[k]) {
            if k > 0 { assert s[k] == s[1..][k - 1]; }
          }
        }
      }
    } else {
      var cur' := cur + [s[0]];
      assert NoSpace(cur') by {
        forall k | 0 <= k < |cur'| ensures !IsSpace(cur'[k]) {
          if k < |cur| { assert cur'[k] == cur[k]; }
        }
      }
      SplitFromTokens(s[1..], cur');
      assert !IsBlank(s) by { assert !IsSpace(s[0]); }
    }
  }

  /** Every token of `s.split()` is non-empty and free of whitespace, and there is
      no token exactly when the line is blank. */
  lemma SplitTokens(s: string)
    ensures forall t :: t in Split(s) ==> |t| > 0 && NoSpace(t)
    ensures Split(s) == [] <==> IsBlank(s)
  {
    SplitFromTokens(s, []);
  }

  lemma {:induction false} SplitFromWord(w: string, s: string, cur: string)
    requires NoSpace(w)
    ensures SplitFrom(w + s, cur) == SplitFrom(s, cur + w)
    decreases |w|
  {
    if w != [] {
      assert (w + s)[0] == w[0] && (w + s)[1..] == w[1..] + s;
      assert NoSpace(w[1..]) by {
        forall k | 0 <= k < |w[1..]| ensures !IsSpace(w[1..][k]) { assert w[1..][k] == w[k + 1]; }
      }
      assert !IsSpace(w[0]);
      SplitFromWord(w[1..], s, cur + [w[0]]);
      assert cur + [w[0]] + w[1..] == cur + w;
    } else {
      assert w + s == s;
      assert cur + w == cur;
    }
  }

  lemma {:induction false} SplitFromHead(s: string, cur: string)
    requires cur != []
    ensures SplitFrom(s, cur) != [] && StartsWith(SplitFrom(s, cur)[0], cur)
    decreases |s|
  {
    if s != [] && !IsSpace(s[0]) {
      SplitFromHead(s[1..], cur + [s[0]]);
      var t := SplitFrom(s, cur)[0];
      assert t[..|cur| + 1][..|cur|] == t[..|cur|];
    }
  }

  /** The first token of a line that does not start with whitespace starts
      with the line's first character. */
  lemma SplitFirstToken(s: string)
    requires s != [] && !IsSpace(s[0])
    ensures Split(s) != [] && |Split(s)[0]| > 0 && Split(s)[0][0] == s[0]
  {
    assert [] + [s[0]] == [s[0]];
    assert Split(s) == SplitFrom(s[1..], [s[0]]);
    SplitFromHead(s[1..], [s[0]]);
    var t := Split(s)[0];
    assert t[..1] == [s[0]];
    assert t[0] == t[..1][0];
  }

  // ---------------------------------------------------------------------------
  // sep.join(parts)

  /** `sep.join(parts)`. */
  function Join(parts: seq<string>, sep: string): string {
    if parts == [] then []
    else if |parts| == 1 then parts[0]
    else parts[0] + sep + Join(parts[1..], sep)
  }

  /** Whitespace at the end of a line ends the token being read and adds nothing. */
  lemma {:induction false} SplitFromBlank(t: string, cur: string)
    requires IsBlank(t)
    ensures SplitFrom(t, cur) == if cur == [] then [] else [cur]
    decreases |t|
  {
    if t != [] {
      assert IsBlank(t[1..]) by {
        forall k | 0 <= k < |t[1..]| ensures IsSpace(t[1..][k]) { assert t[1..][k] == t[k + 1]; }
      }
      SplitFromBlank(t[1..], []);
    }
  }

  /** Splitting a tab-joined list of tokens, followed by any whitespace, gives
      the tokens back: a line written by joining columns with tabs is read back
      column for column. */
  lemma {:induction false} SplitJoin(parts: seq<string>, tail: string)
    requires forall t :: t in parts ==> |t| > 0 && NoSpace(t)
    requires IsBlank(tail)
    ensures Split(Join(parts, "\t") + tail) == parts
  {
    if parts == [] {
      assert Join(parts, "\t") + tail == tail;
      SplitFromBlank(tail, []);
    } else if |parts| == 1 {
      SplitJoinOne(parts, tail);
    } else {
      SplitJoin(parts[1..], tail);
      SplitJoinCons(parts, tail);
    }
  }

  lemma SplitJoinOne(parts: seq<string>, tail: string)
    requires |parts| == 1 && |parts[0]| > 0 && NoSpace(parts[0]) && IsBlank(tail)
    ensures Split(Join(parts, "\t") + tail) == parts
  {
    assert Join(parts, "\t") + tail == parts[0] + tail;
    SplitFromWord(parts[0], tail, []);
    assert [] + parts[0] == parts[0];
    SplitFromBlank(tail, parts[0]);
    assert parts == [parts[0]];
  }

  /** The first token and its tab come off ahead of the rest of the line. */
  lemma SplitJoinCons(parts: seq<string>, tail: string)
    requires |parts| > 1 && |parts[0]| > 0 && NoSpace(parts[0])
    requires Split(Join(parts[1..], "\t") + tail) == parts[1..]
    ensures Split(Join(parts, "\t") + tail) == parts
  {
    var rest := Join(parts[1..], "\t") + tail;
    assert Join(parts, "\t") + tail == parts[0] + ("\t" + rest);
    SplitFromWord(parts[0], "\t" + rest, []);
    assert ("\t" + rest)[0] == '\t' && ("\t" + rest)[1..] == rest;
    assert [] + parts[0] == parts[0];
    assert parts == [parts[0]] + parts[1..];
  }

  /** Joining two non-empty lists is joining each and putting the separator between. */
  lemma {:induction false} JoinAppend(parts: seq<string>, rest: seq<string>, sep: string)
    requires parts != [] && rest != []
    ensures Join(parts + rest, sep) == Join(parts, sep) + sep + Join(rest, sep)
  {
    if |parts| == 1 {
      assert (parts + rest)[1..] == rest;
    } else {
      assert (parts + rest)[1..] == parts[1..] + rest;
      JoinAppend(parts[1..], rest, sep);
    }
  }

  /** A line written as the tab-joined `parts`, a tab and the tab-joined `rest`
      splits into `parts` followed by `rest`, also when `rest` is empty and
      the line ends in a tab. */
  lemma SplitJoinedLine(parts: seq<string>, rest: seq<string>)
    requires parts != []
    requires forall t :: t in parts ==> |t| > 0 && NoSpace(t)
    requires forall t :: t in rest ==> |t| > 0 && NoSpace(t)
    ensures Split(Join(parts, "\t") + "\t" + Join(rest, "\t")) == parts + rest
  {
    if rest == [] {
      assert Join(parts, "\t") + "\t" + Join(rest, "\t") == Join(parts, "\t") + "\t";
      SplitJoin(parts, "\t");
      assert parts + rest == parts;
    } else {
      JoinAppend(parts, rest, "\t");
      assert Join(parts + rest, "\t") + [] == Join(parts + rest, "\t");
      SplitJoin(parts + rest, []);
    }
  }

  /** Joining non-empty tokens with a separator free of whitespace gives a
      single non-empty token. */
  lemma {:induction false} JoinIsToken(parts: seq<string>, sep: string)
    requires parts != [] && NoSpace(sep)
    requires forall t :: t in parts ==> |t| > 0 && NoSpace(t)
    ensures |Join(parts, sep)| > 0 && NoSpace(Join(parts, sep))
  {
    if |parts| > 1 {
      JoinIsToken(parts[1..], sep);
      var a, b := parts[0] + sep, Join(parts[1..], sep);
      assert NoSpace(a) by {
        forall k | 0 <= k < |a| ensures !IsSpace(a[k]) {
          if k < |parts[0]| { assert a[k] == parts[0][k]; } else { assert a[k] == sep[k - |parts[0]|]; }
        }
      }
      forall k | 0 <= k < |a + b| ensures !IsSpace((a + b)[k]) {
        if k < |a| { assert (a + b)[k] == a[k]; } else { assert (a + b)[k] == b[k - |a|]; }
      }
    } else {
      assert parts[0] in parts;
    }
  }

  // ---------------------------------------------------------------------------
  // str.strip() and str.upper()

  /** The number of whitespace characters `s` starts with. */
  function LeadingBlanks(s: string): (n: nat)
    ensures n <= |s| && (forall k :: 0 <= k < n ==> IsSpace(s[k])) && (n < |s| ==> !IsSpace(s[n]))
  {
    if s != [] && IsSpace(s[0]) then
      var m := LeadingBlanks(s[1..]);
      assert forall k :: 1 <= k < m + 1 ==> s[k] == s[1..][k - 1];
      m + 1
    else 0
  }

  /** The number of whitespace characters `s` ends with. */
  function TrailingBlanks(s: string): (n: nat)
    ensures n <= |s| && (forall k :: |s| - n <= k < |s| ==> IsSpace(s[k])) && (n < |s| ==> !IsSpace(s[|s| - n - 1]))
  {
    if s != [] && IsSpace(s[|s| - 1]) then
      var m := TrailingBlanks(s[..|s| - 1]);
      assert forall k :: |s| - 1 - m <= k < |s| - 1 ==> s[k] == s[..|s| - 1][k];
      m + 1
    else 0
  }

  function LStrip(s: string): (r: string)
    ensures |r| <= |s| && s == s[..|s| - |r|] + r
    ensures r == [] || !IsSpace(r[0])
    ensures IsBlank(s[..|s| - |r|])
  {
    var n := LeadingBlanks(s);
    assert s == s[..n] + s[n..];
    s[n..]
  }

  function RStrip(s: string): (r: string)
    ensures |r| <= |s| && s == r + s[|r|..]
    ensures r == [] || !IsSpace(r[|r| - 1])
    ensures IsBlank(s[|r|..])
  {
    var n := TrailingBlanks(s);
    assert s == s[..|s| - n] + s[|s| - n..];
    s[..|s| - n]
  }

  /** `s.strip()`: the line without leading and trailing whitespace. */
  function Strip(s: string): (r: string)
    ensures exists pre, post :: s == pre + r + post && IsBlank(pre) && IsBlank(post)
    ensures r == [] || (!IsSpace(r[0]) && !IsSpace(r[|r| - 1]))
  {
    var l := LStrip(s);
    var r := RStrip(l);
    StripParts(s, l, r);
    assert r == [] || r[0] == l[0];
    r
  }

  /** The blank prefix `LStrip` removes and the blank suffix `RStrip` removes
      surround what is left. */
  lemma StripParts(s: string, l: string, r: string)
    requires l == LStrip(s) && r == RStrip(l)
    ensures s == s[..|s| - |l|] + r + l[|r|..] && IsBlank(s[..|s| - |l|]) && IsBlank(l[|r|..])
  {
    var pre, post := s[..|s| - |l|], l[|r|..];
    assert s == pre + l && l == r + post;
    assert pre + (r + post) == pre + r + post;
  }

  /** A string that is not blank keeps something when stripped. */
  lemma StripNonBlank(s: string)
    requires !IsBlank(s)
    ensures Strip(s) != []
  {
    var pre, post :| s == pre + Strip(s) + post && IsBlank(pre) && IsBlank(post);
    BlankConcat(pre, post);
  }

  lemma BlankConcat(a: string, b: string)
    requires IsBlank(a) && IsBlank(b)
    ensures IsBlank(a + b)
  {
  }

  function UpperChar(c: char): char {
    if 'a' <= c <= 'z' then (c as int - 'a' as int + 'A' as int) as char else c
  }

  /** `s.upper()` over ASCII letters: same length, each letter raised, nothing else touched. */
  function Upper(s: string): (r: string)
    ensures |r| == |s|
    ensures forall k :: 0 <= k < |s| ==> r[k] == UpperChar(s[k])
  {
    seq(|s|, k requires 0 <= k < |s| => UpperChar(s[k]))
  }

  // ---------------------------------------------------------------------------
  // Decimal numerals: '{}'.format(n) and int(token)

  predicate IsDigit(c: char) {
    '0' <= c <= '9'
  }

  function DigitChar(d: nat): (c: char)
    requires d < 10
    ensures IsDigit(c) && c as int - '0' as int == d
  {
    ('0' as int + d) as char
  }

  /** The decimal numeral of `n`, without leading zeros. */
  function NatToString(n: nat): string
    decreases n
  {
    if n < 10 then [DigitChar(n)] else NatToString(n / 10) + [DigitChar(n % 10)]
  }

  /** The decimal numeral of `i`, with a leading `-` when negative. */
  function IntToString(i: int): string {
    if i < 0 then "-" + NatToString(-i) else NatToString(i)
  }

  predicate AllDigits(s: string) {
    forall k :: 0 <= k < |s| ==> IsDigit(s[k])
  }

  /** The value of a run of decimal digits. */
  function DigitsValue(s: string): nat
    requires AllDigits(s)
  {
    if s == [] then 0
    else DigitsValue(s[..|s| - 1]) * 10 + (s[|s| - 1] as int - '0' as int)
  }

  /** `int(token)`: an optional sign followed by one or more decimal digits. */
  function ParseInt(s: string): Option<int> {
    if |s| > 1 && (s[0] == '-' || s[0] == '+') && AllDigits(s[1..]) then
      var magnitude: int := DigitsValue(s[1..]);
      Some(if s[0] == '-' then -magnitude else magnitude)
    else if |s| > 0 && AllDigits(s) then
      Some(DigitsValue(s))
    else
      None
  }

  lemma {:induction false} NatToStringDigits(n: nat)
    ensures |NatToString(n)| > 0 && AllDigits(NatToString(n))
    ensures DigitsValue(NatToString(n)) == n
    decreases n
  {
    var s := NatToString(n);
    if n >= 10 {
      NatToStringDigits(n / 10);
      assert s[..|s| - 1] == NatToString(n / 10);
    }
  }

  /** Reading back a printed integer gives the integer. */
  lemma IntToStringRoundTrip(i: int)
    ensures ParseInt(IntToString(i)) == Some(i)
  {
    if i < 0 {
      NatToStringDigits(-i);
      assert IntToString(i)[1..] == NatToString(-i);
    } else {
      NatToStringDigits(i);
    }
  }

  /** Distinct numbers print differently. */
  lemma NatToStringInjective(m: nat, n: nat)
    requires m != n
    ensures NatToString(m) != NatToString(n)
  {
    NatToStringDigits(m);
    NatToStringDigits(n);
  }
}
