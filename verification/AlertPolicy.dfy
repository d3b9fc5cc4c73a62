/**
  Port filters of alerts (core/alert_policy.py): a small language of ports and port
  ranges, its normal form and its matching.  Digits are the ASCII digits.
*/
module AlertPolicy {
  import opened Wrappers
  import opened Splitting

  // ----- decimal numbers ------------------------------------------------------------

  predicate IsDigit(c: char) { '0' <= c <= '9' }

  /** At least one character, all of them digits. */
  predicate IsNumber(s: string) {
    s != [] && forall i :: 0 <= i < |s| ==> IsDigit(s[i])
  }

  function Digit(c: char): nat
    requires IsDigit(c)
  {
    c as int - '0' as int
  }

  function ToInt(s: string): nat
    requires forall i :: 0 <= i < |s| ==> IsDigit(s[i])
  {
    if s == [] then 0 else 10 * ToInt(s[..|s| - 1]) + Digit(s[|s| - 1])
  }

  function ToDecimal(n: nat): (s: string)
    ensures IsNumber(s)
  {
    var last := [('0' as int + n % 10) as char];
    if n < 10 then last else ToDecimal(n / 10) + last
  }

  /** Printing a number and reading it back gives the number. */
  lemma {:induction false} ReadsBack(n: nat)
    ensures ToInt(ToDecimal(n)) == n
  {
    var s := ToDecimal(n);
    if n < 10 {
      assert s[..|s| - 1] == [];
    } else {
      ReadsBack(n / 10);
      assert s[..|s| - 1] == ToDecimal(n / 10);
    }
  }

  function Zeros(z: nat): (s: string)
    ensures |s| == z && forall i :: 0 <= i < z ==> s[i] == '0'
  {
    seq(z, _ => '0')
  }

  /** The text is the decimal form of `n`, after any number of zeros. */
  ghost predicate IsNumeral(s: string, n: nat) {
    exists z :: s == Zeros(z) + ToDecimal(n)
  }

  lemma {:induction false} LeadingZero(s: string)
    requires forall i :: 0 <= i < |s| ==> IsDigit(s[i])
    ensures ToInt(['0'] + s) == ToInt(s)
  {
    var t := ['0'] + s;
    if s == [] {
      assert t[..0] == [];
    } else {
      assert t[..|t| - 1] == ['0'] + s[..|s| - 1];
      LeadingZero(s[..|s| - 1]);
    }
  }

  lemma {:induction false} LeadingZeros(z: nat, s: string)
    requires IsNumber(s)
    ensures IsNumber(Zeros(z) + s) && ToInt(Zeros(z) + s) == ToInt(s)
  {
    if z == 0 {
      assert Zeros(0) + s == s;
    } else {
      LeadingZeros(z - 1, s);
      assert Zeros(z) + s == ['0'] + (Zeros(z - 1) + s);
      LeadingZero(Zeros(z - 1) + s);
    }
  }

  lemma {:induction false} NumberHasZeros(s: string) returns (z: nat)
    requires IsNumber(s)
    ensures s == Zeros(z) + ToDecimal(ToInt(s))
  {
    var front, last := s[..|s| - 1], s[|s| - 1];
    assert s == front + [last];
    if front == [] {
      z := 0;
    } else {
      z := NumberHasZeros(front);
      if ToInt(front) == 0 {
        assert ToDecimal(0) == "0";
        assert front == Zeros(z + 1);
        z := z + 1;
      }
    }
  }

  /** A text reads as `n` if and only if it is the decimal form of `n`, zeros in front aside. */
  lemma NumberIff(s: string, n: nat)
    ensures IsNumber(s) && ToInt(s) == n <==> IsNumeral(s, n)
  {
    if IsNumber(s) { var z := NumberHasZeros(s); }
    if z :| s == Zeros(z) + ToDecimal(n) {
      LeadingZeros(z, ToDecimal(n));
      ReadsBack(n);
    }
  }

  // ----- tokens ---------------------------------------------------------------------

  /** What a token of a specification denotes; the bounds of a range may come in either order. */
  datatype Range = Port(p: nat) | Between(lo: nat, hi: nat)

  predicate ValidPort(s: string) {
    IsNumber(s) && 1 <= ToInt(s) <= 65535
  }

  /** The text up to the first dash, and what follows it. */
  function Partition(tok: string): (r: (string, string))
    requires '-' in tok
    ensures tok == r.0 + "-" + r.1 && '-' !in r.0
  {
    if tok[0] == '-' then ("", tok[1..])
    else
      var (lo, hi) := Partition(tok[1..]);
      ([tok[0]] + lo, hi)
  }

  lemma {:induction false} PartitionOf(lo: string, hi: string)
    requires '-' !in lo
    ensures Partition(lo + "-" + hi) == (lo, hi)
  {
    var tok := lo + "-" + hi;
    if lo == [] {
      assert tok[1..] == hi;
    } else {
      assert tok[1..] == lo[1..] + "-" + hi;
      PartitionOf(lo[1..], hi);
      assert [lo[0]] + lo[1..] == lo;
    }
  }

  function Parse(tok: string): Option<Range> {
    if '-' in tok then
      var (lo, hi) := Partition(tok);
      if ValidPort(lo) && ValidPort(hi) then Some(Between(ToInt(lo), ToInt(hi))) else None
    else if ValidPort(tok) then Some(Port(ToInt(tok)))
    else None
  }

  function Show(r: Range): string {
    match r
    case Port(p) => ToDecimal(p)
    case Between(lo, hi) => ToDecimal(lo) + "-" + ToDecimal(hi)
  }

  predicate InBounds(r: Range) {
    match r
    case Port(p) => 1 <= p <= 65535
    case Between(lo, hi) => 1 <= lo <= 65535 && 1 <= hi <= 65535
  }

  lemma NumbersAreClean(s: string)
    requires IsNumber(s)
    ensures '-' !in s && ',' !in s && ' ' !in s
  {}

  lemma ShownParses(r: Range)
    requires InBounds(r)
    ensures Parse(Show(r)) == Some(r)
    ensures ',' !in Show(r) && ' ' !in Show(r) && Show(r) != []
  {
    match r {
      case Port(p) =>
        ReadsBack(p);
        NumbersAreClean(ToDecimal(p));
      case Between(lo, hi) =>
        ReadsBack(lo);
        ReadsBack(hi);
        NumbersAreClean(ToDecimal(lo));
        NumbersAreClean(ToDecimal(hi));
        PartitionOf(ToDecimal(lo), ToDecimal(hi));
    }
  }

  /** A token reads as a port if it is a numeral of it, and as a range if it is two numerals
      with a dash between; ports go from 1 to 65535. */
  lemma ReadsAsIff(tok: string, r: Range)
    ensures Parse(tok) == Some(r)
            <==> && InBounds(r)
                 && match r
                    case Port(p) => IsNumeral(tok, p)
                    case Between(lo, hi) =>
                      exists a, b :: IsNumeral(a, lo) && IsNumeral(b, hi) && tok == a + "-" + b
  {
    hide ToInt, ToDecimal, IsNumeral;
    forall s, n ensures IsNumber(s) && ToInt(s) == n <==> IsNumeral(s, n) {
      NumberIff(s, n);
    }
    match r {
      case Port(p) =>
        if IsNumber(tok) { NumbersAreClean(tok); }
      case Between(lo, hi) =>
        if Parse(tok) == Some(r) {
          var (a, b) := Partition(tok);
          assert IsNumeral(a, lo) && IsNumeral(b, hi) && tok == a + "-" + b;
        }
        if a, b :| IsNumeral(a, lo) && IsNumeral(b, hi) && tok == a + "-" + b {
          NumbersAreClean(a);
          PartitionOf(a, b);
          assert tok[|a|] == '-';
        }
    }
  }

  // ----- specifications -------------------------------------------------------------

  function WithoutSpaces(s: string): (r: string)
    ensures ' ' !in r
    ensures ' ' !in s ==> r == s
  {
    if s == [] then []
    else if s[0] == ' ' then WithoutSpaces(s[1..])
    else [s[0]] + WithoutSpaces(s[1..])
  }

  /** Spaces, and nothing but spaces, disappear. */
  lemma {:induction false} OnlySpacesGo(a: string, c: char, b: string)
    ensures WithoutSpaces(a + [c] + b) == WithoutSpaces(a) + (if c == ' ' then [] else [c]) + WithoutSpaces(b)
  {
    var s := a + [c] + b;
    if a == [] {
      assert s[1..] == b && s[0] == c;
    } else {
      assert s[1..] == a[1..] + [c] + b;
      OnlySpacesGo(a[1..], c, b);
    }
  }

  function Ranges(toks: seq<string>): seq<Range> {
    if toks == [] then []
    else Ranges(toks[..|toks| - 1]) +
         var r := Parse(toks[|toks| - 1]);
         if r.Some? then [r.value] else []
  }

  /** The ranges that a specification denotes: those of its valid tokens, in order. */
  function Denotes(spec: string): seq<Range> {
    Ranges(Split(WithoutSpaces(spec), ','))
  }

  function Shown(rs: seq<Range>): (ss: seq<string>)
    ensures |ss| == |rs|
  {
    if rs == [] then [] else Shown(rs[..|rs| - 1]) + [Show(rs[|rs| - 1])]
  }

  /** The normal form of a list of ranges. */
  function Printed(rs: seq<Range>): string {
    if rs == [] then "" else Join(Shown(rs), ',')
  }

  lemma {:induction false} RangesInBounds(toks: seq<string>)
    ensures forall i :: 0 <= i < |Ranges(toks)| ==> InBounds(Ranges(toks)[i])
  {
    if toks != [] { RangesInBounds(toks[..|toks| - 1]); }
  }

  lemma {:induction false} ShownRanges(rs: seq<Range>)
    requires forall i :: 0 <= i < |rs| ==> InBounds(rs[i])
    ensures |Shown(rs)| == |rs| && Ranges(Shown(rs)) == rs
    ensures forall t :: t in Shown(rs) ==> ',' !in t && ' ' !in t && t != []
  {
    if rs != [] {
      var n := |rs| - 1;
      ShownRanges(rs[..n]);
      ShownParses(rs[n]);
      assert Shown(rs)[..|Shown(rs)| - 1] == Shown(rs[..n]);
    }
  }

  lemma {:induction false} JoinHasNoSpace(parts: seq<string>)
    requires parts != [] && forall t :: t in parts ==> ' ' !in t && t != []
    ensures ' ' !in Join(parts, ',') && Join(parts, ',') != []
  {
    if |parts| > 1 { JoinHasNoSpace(parts[1..]); }
  }

  /** Printed ranges denote themselves. */
  lemma PrintedDenotes(rs: seq<Range>)
    requires forall i :: 0 <= i < |rs| ==> InBounds(rs[i])
    ensures Denotes(Printed(rs)) == rs
    ensures Printed(rs) == "" <==> rs == []
  {
    if rs == [] {
      assert Split("", ',') == [""] && [""][..0] == [];
      assert Ranges([""]) == [];
    } else {
      ShownRanges(rs);
      JoinHasNoSpace(Shown(rs));
      SplitJoin(Shown(rs), ',');
    }
  }

  /** A range is denoted exactly when some token reads as it. */
  lemma {:induction false} DenotedByTokens(toks: seq<string>, r: Range)
    ensures r in Ranges(toks) <==> exists tok :: tok in toks && Parse(tok) == Some(r)
  {
    hide Parse;
    if toks != [] {
      DenotedByTokens(toks[..|toks| - 1], r);
      if exists tok :: tok in toks && Parse(tok) == Some(r) {
        var tok :| tok in toks && Parse(tok) == Some(r);
        assert tok in toks[..|toks| - 1] || tok == toks[|toks| - 1];
      }
    }
  }

  method CleanToken(tok: string) returns (cleaned: Option<string>)
    ensures cleaned == if Parse(tok).Some? then Some(Show(Parse(tok).value)) else None
  {
    if '-' in tok {
      var (lo, hi) := Partition(tok);
      if ValidPort(lo) && ValidPort(hi) {
        return Some(ToDecimal(ToInt(lo)) + "-" + ToDecimal(ToInt(hi)));
      }
    } else if ValidPort(tok) {
      return Some(ToDecimal(ToInt(tok)));
    }
    return None;
  }

  lemma ShownRangesStep(toks: seq<string>, i: nat)
    requires i < |toks|
    ensures var r := Parse(toks[i]);
            Shown(Ranges(toks[..i + 1])) == Shown(Ranges(toks[..i])) + if r.Some? then [Show(r.value)] else []
  {
    hide Parse, Show;
    assert toks[..i + 1][..i] == toks[..i];
    var rs, r := Ranges(toks[..i]), Parse(toks[i]);
    if r.Some? { assert (rs + [r.value])[..|rs|] == rs; } else { assert rs + [] == rs; }
  }

  /** The normal form of a specification is that of the ranges it denotes. */
  method CleanPortSpec(spec: string) returns (cleaned: string)
    ensures cleaned == Printed(Denotes(spec))
  {
    hide Parse, Show, Shown, Ranges;
    var toks := Split(WithoutSpaces(spec), ',');
    var out: seq<string> := [];
    NothingShown();
    for i := 0 to |toks|
      invariant out == Shown(Ranges(toks[..i]))
    {
      ShownRangesStep(toks, i);
      var tok := CleanToken(toks[i]);
      if tok.Some? { out := out + [tok.value]; }
    }
    assert toks[..|toks|] == toks;
    DenotedInBounds(spec);
    ShownRanges(Denotes(spec));
    cleaned := if out == [] then "" else Join(out, ',');
  }

  lemma NothingShown()
    ensures Ranges([]) == [] && Shown([]) == []
  {}

  /** Cleaning keeps the meaning, and a second cleaning changes nothing. */
  lemma CleaningIsIdempotent(spec: string)
    ensures Denotes(Printed(Denotes(spec))) == Denotes(spec)
    ensures Printed(Denotes(Printed(Denotes(spec)))) == Printed(Denotes(spec))
  {
    DenotedInBounds(spec);
    PrintedDenotes(Denotes(spec));
  }

  predicate Holds(r: Range, port: int): (holds: bool)
    ensures r.Port? ==> (holds <==> port == r.p)
    ensures r.Between? ==> (holds <==> !(port < r.lo && port < r.hi) && !(port > r.lo && port > r.hi))
  {
    match r
    case Port(p) => port == p
    case Between(lo, hi) => lo <= port <= hi || hi <= port <= lo
  }

  /** Does the token, which reads as `r`, hold the port? */
  method TokenHolds(tok: string, ghost r: Range, port: int) returns (holds: bool)
    requires Parse(tok) == Some(r)
    ensures holds <==> Holds(r, port)
  {
    if '-' in tok {
      var (lo, hi) := Partition(tok);
      var loI, hiI := ToInt(lo), ToInt(hi);
      if loI > hiI { loI, hiI := hiI, loI; }
      return loI <= port <= hiI;
    }
    return ToInt(tok) == port;
  }

  /** A port matches if the specification denotes no range at all, or one that holds it,
      whichever way round its bounds are. */
  method PortMatches(spec: string, port: int) returns (matches: bool)
    ensures matches <==> Denotes(spec) == [] || exists r :: r in Denotes(spec) && Holds(r, port)
  {
    hide Denotes, Parse, Show, Holds, Join, Split, Shown, Ranges;
    var cleaned := CleanPortSpec(spec);
    ghost var rs := Denotes(spec);
    DenotedInBounds(spec);
    PrintedDenotes(rs);
    if cleaned == "" { return true; }
    var toks := Split(cleaned, ',');
    ShownRanges(rs);
    SplitJoin(Shown(rs), ',');
    for i := 0 to |toks|
      invariant forall k :: 0 <= k < i ==> !Holds(rs[k], port)
    {
      ShownAt(rs, i);
      ShownParses(rs[i]);
      var holds := TokenHolds(toks[i], rs[i], port);
      if holds { return true; }
    }
    return false;
  }

  lemma DenotedInBounds(spec: string)
    ensures forall i :: 0 <= i < |Denotes(spec)| ==> InBounds(Denotes(spec)[i])
  {
    RangesInBounds(Split(WithoutSpaces(spec), ','));
  }

  lemma {:induction false} ShownAt(rs: seq<Range>, i: nat)
    requires i < |rs|
    ensures Shown(rs)[i] == Show(rs[i])
    decreases |rs|
  {
    hide Show;
    if i < |rs| - 1 { ShownAt(rs[..|rs| - 1], i); }
  }
}
