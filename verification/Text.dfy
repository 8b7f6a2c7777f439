/** Go's string and strconv operations that the modelled code relies on. */
module Text {
  import opened Wrappers

  // ----- lexicographic order, as `<` and `sort.Strings` use it -----

  predicate LexLe(a: string, b: string) {
    a == [] || (b != [] && (a[0] < b[0] || (a[0] == b[0] && LexLe(a[1..], b[1..]))))
  }

  predicate LexLess(a: string, b: string) {
    !LexLe(b, a)
  }

  lemma {:induction false} LexTotal(a: string, b: string)
    ensures LexLe(a, b) || LexLe(b, a)
  {
    if a != [] && b != [] {
      LexTotal(a[1..], b[1..]);
    }
  }

  lemma {:induction false} LexTransitive(a: string, b: string, c: string)
    requires LexLe(a, b) && LexLe(b, c)
    ensures LexLe(a, c)
  {
    if a != [] && a[0] == b[0] == c[0] {
      LexTransitive(a[1..], b[1..], c[1..]);
    }
  }

  lemma {:induction false} LexAntisymmetric(a: string, b: string)
    requires LexLe(a, b) && LexLe(b, a)
    ensures a == b
  {
    if a != [] {
      LexAntisymmetric(a[1..], b[1..]);
      assert a == [a[0]] + a[1..] && b == [b[0]] + b[1..];
    }
  }

  /** The first difference decides, and a text comes before its extensions. */
  lemma {:induction false} LexDecides(common: string, a: string, b: string)
    requires b != "" && (a == "" || a[0] < b[0])
    ensures LexLess(common + a, common + b)
    decreases common
  {
    if common == "" {
      assert common + a == a && common + b == b;
    } else {
      LexDecides(common[1..], a, b);
      assert (common + a)[1..] == common[1..] + a && (common + b)[1..] == common[1..] + b;
    }
  }

  // ----- strings.TrimSpace -----

  /** The ranges of unicode.White_Space. */
  const SPACE_RANGES: seq<(char, char)> :=
    [('\t', '\r'), (' ', ' '), ('\U{85}', '\U{85}'), ('\U{A0}', '\U{A0}'), ('\U{1680}', '\U{1680}'),
     ('\U{2000}', '\U{200A}'), ('\U{2028}', '\U{2029}'), ('\U{202F}', '\U{202F}'), ('\U{205F}', '\U{205F}'),
         ('\U{3000}', '\U{3000}')]

  predicate InRanges(c: char, ranges: seq<(char, char)>) {
    ranges != [] && (ranges[0].0 <= c <= ranges[0].1 || InRanges(c, ranges[1..]))
  }

  /** unicode.IsSpace */
  predicate IsSpace(c: char) {
    InRanges(c, SPACE_RANGES)
  }

  lemma {:induction false} OutsideRanges(c: char, ranges: seq<(char, char)>)
    requires forall i | 0 <= i < |ranges| :: !(ranges[i].0 <= c <= ranges[i].1)
    ensures !InRanges(c, ranges)
  {
    if ranges != [] {
      OutsideRanges(c, ranges[1..]);
    }
  }

  /** The visible characters of ASCII are not spaces. */
  lemma VisibleIsNoSpace(c: char)
    requires '!' <= c <= '~'
    ensures !IsSpace(c)
  {
    OutsideRanges(c, SPACE_RANGES);
  }

  /** The first position from `i` on that is no space. */
  function SkipLeft(s: string, i: nat): (r: nat)
    requires i <= |s|
    ensures i <= r <= |s| && (r < |s| ==> !IsSpace(s[r]))
    decreases |s| - i
  {
    if i < |s| && IsSpace(s[i]) then SkipLeft(s, i + 1) else i
  }

  /** The end of the text up to `j` without the spaces before `j`. */
  function SkipRight(s: string, i: nat, j: nat): (r: nat)
    requires i <= j <= |s|
    ensures i <= r <= j && (r > i ==> !IsSpace(s[r - 1]))
  {
    if j > i && IsSpace(s[j - 1]) then SkipRight(s, i, j - 1) else j
  }

  function Trim(s: string): string {
    var i := SkipLeft(s, 0);
    s[i..SkipRight(s, i, |s|)]
  }

  /** Text that TrimSpace leaves alone. */
  predicate Tight(s: string) {
    s == [] || (!IsSpace(s[0]) && !IsSpace(s[|s| - 1]))
  }

  lemma TrimTight(s: string)
    ensures Tight(Trim(s))
    ensures Tight(s) ==> Trim(s) == s
    ensures Trim(Trim(s)) == Trim(s)
  {
    var i := SkipLeft(s, 0);
    var j := SkipRight(s, i, |s|);
    var t := Trim(s);
    if t != [] {
      assert t[0] == s[i] && t[|t| - 1] == s[j - 1];
    }
    assert t[0..|t|] == t;
    assert s[0..|s|] == s;
  }

  // ----- strings.Cut and line splitting -----

  function IndexFrom(s: string, c: char, i: nat): (r: nat)
    requires i <= |s|
    ensures i <= r <= |s|
    ensures r < |s| ==> s[r] == c
    ensures forall j | i <= j < r :: s[j] != c
    decreases |s| - i
  {
    if i < |s| && s[i] != c then IndexFrom(s, c, i + 1) else i
  }

  /** The position of the first `c` in `s`, or |s|. */
  function IndexOf(s: string, c: char): (i: nat)
    ensures i <= |s|
    ensures i < |s| ==> s[i] == c
    ensures forall j | 0 <= j < i :: s[j] != c
  {
    IndexFrom(s, c, 0)
  }

  lemma IndexOfFirst(before: string, c: char, after: string)
    requires c !in before
    ensures IndexOf(before + [c] + after, c) == |before|
  {
    var s := before + [c] + after;
    assert s[|before|] == c;
    assert forall j | 0 <= j < |before| :: s[j] == before[j] && before[j] in before;
  }

  /** strings.Split */
  function Split(s: string, c: char): (parts: seq<string>)
    ensures parts != []
  {
    var i := IndexOf(s, c);
    if i == |s| then [s] else [s[..i]] + Split(s[i + 1..], c)
  }

  lemma SplitOne(s: string, c: char)
    requires c !in s
    ensures Split(s, c) == [s]
  {}

  lemma SplitFirst(before: string, c: char, after: string)
    requires c !in before
    ensures Split(before + [c] + after, c) == [before] + Split(after, c)
  {
    IndexOfFirst(before, c, after);
    var s := before + [c] + after;
    assert s[..|before|] == before && s[|before| + 1..] == after;
  }

  // ----- decimal numbers -----

  predicate IsDigit(c: char) {
    '0' <= c <= '9'
  }

  function Digit(d: nat): (c: char)
    requires d < 10
    ensures IsDigit(c) && DigitValue(c) == d
  {
    '0' + d as char
  }

  function DigitValue(c: char): nat
    requires IsDigit(c)
  {
    c as nat - '0' as nat
  }

  predicate AllDigits(s: string) {
    forall i | 0 <= i < |s| :: IsDigit(s[i])
  }

  function PrintNat(n: nat): (s: string)
    ensures s != [] && AllDigits(s)
  {
    if n < 10 then [Digit(n)] else PrintNat(n / 10) + [Digit(n % 10)]
  }

  function ReadDigits(s: string): nat
    requires AllDigits(s)
  {
    if s == [] then 0 else ReadDigits(s[..|s| - 1]) * 10 + DigitValue(s[|s| - 1])
  }

  lemma {:induction false} ReadPrintNat(n: nat)
    ensures ReadDigits(PrintNat(n)) == n
  {
    if n >= 10 {
      ReadPrintNat(n / 10);
      assert PrintNat(n)[..|PrintNat(n)| - 1] == PrintNat(n / 10);
    } else {
      assert ReadDigits([]) == 0;
      assert PrintNat(n)[..0] == [];
    }
  }

  const MAX_INT64 := 0x7FFF_FFFF_FFFF_FFFF

  /** strconv.Itoa */
  function Itoa(n: int): string {
    if n < 0 then "-" + PrintNat(-n) else PrintNat(n)
  }

  /** strconv.Atoi on a 64-bit platform: an optional sign, digits, and a range check. */
  function Atoi(s: string): (r: Option<int>)
    ensures r.Some? ==> -MAX_INT64 - 1 <= r.value <= MAX_INT64
  {
    if s == [] then None
    else
      var signed := s[0] == '+' || s[0] == '-';
      var body := if signed then s[1..] else s;
      if body == [] || !AllDigits(body) then None
      else
        var magnitude: int := ReadDigits(body);
        var value := if s[0] == '-' then -magnitude else magnitude;
        if -MAX_INT64 - 1 <= value <= MAX_INT64 then Some(value) else None
  }

  const MAX_UINT64 := 0xFFFF_FFFF_FFFF_FFFF

  /** The digits of `s` from `i` on, after those that gave `n`: absent at a character that is no digit, and
      the greatest 64-bit number as soon as the digits exceed it. */
  function ScanDigits(s: string, i: nat, n: nat): Option<nat>
    requires i <= |s|
    decreases |s| - i
  {
    if i == |s| then Some(n)
    else if !IsDigit(s[i]) then None
    else
      var next := n * 10 + DigitValue(s[i]);
      if next > MAX_UINT64 then Some(MAX_UINT64) else ScanDigits(s, i + 1, next)
  }

  /** The number that strconv.Atoi returns, with or beside an error: zero for a text that is no number,
      the nearest 64-bit integer for a number out of range. */
  function AtoiOrNearest(s: string): (n: int)
    ensures -MAX_INT64 - 1 <= n <= MAX_INT64
    ensures Atoi(s).Some? ==> n == Atoi(s).value
  {
    if Atoi(s).Some? then Atoi(s).value
    else if s == [] then 0
    else
      var signed := s[0] == '+' || s[0] == '-';
      if signed && |s| == 1 then 0
      else
        match ScanDigits(s, if signed then 1 else 0, 0)
        case None => 0
        case Some(scanned) =>
          var u: int := scanned;
          if s[0] == '-' then (if u > MAX_INT64 then -MAX_INT64 - 1 else -u)
          else if u > MAX_INT64 then MAX_INT64 else u
  }

  lemma ReadOneMore(s: string, i: nat)
    requires AllDigits(s) && i < |s|
    ensures ReadDigits(s[..i + 1]) == ReadDigits(s[..i]) * 10 + DigitValue(s[i])
  {
    assert s[..i + 1][..i] == s[..i];
  }

  lemma {:induction false} ReadGrows(s: string, i: nat, j: nat)
    requires AllDigits(s) && i <= j <= |s|
    ensures ReadDigits(s[..i]) <= ReadDigits(s[..j])
  {
    if i < j {
      ReadGrows(s, i, j - 1);
      ReadOneMore(s, j - 1);
    }
  }

  /** The scan from the left reads the digits, up to the greatest 64-bit number. */
  lemma {:induction false} ScanReads(s: string, i: nat)
    requires AllDigits(s) && i <= |s| && ReadDigits(s[..i]) <= MAX_UINT64
    ensures ScanDigits(s, i, ReadDigits(s[..i])) == Some(if ReadDigits(s) <= MAX_UINT64 then ReadDigits(s)
        else MAX_UINT64)
    decreases |s| - i
  {
    assert s[..|s|] == s;
    if i < |s| {
      ReadOneMore(s, i);
      if ReadDigits(s[..i + 1]) <= MAX_UINT64 {
        ScanReads(s, i + 1);
      } else {
        ReadGrows(s, i + 1, |s|);
      }
    }
  }

  lemma {:induction false} ScanFrom(s: string, sign: char, i: nat, n: nat)
    requires i <= |s|
    ensures ScanDigits([sign] + s, i + 1, n) == ScanDigits(s, i, n)
    decreases |s| - i
  {
    if i < |s| && IsDigit(s[i]) {
      assert ([sign] + s)[i + 1] == s[i];
      ScanFrom(s, sign, i + 1, n * 10 + DigitValue(s[i]));
    }
  }

  /** Digits out of range give the nearest 64-bit integer beside the error. */
  lemma NearestOutOfRange(s: string)
    requires s != [] && AllDigits(s) && ReadDigits(s) > MAX_INT64
    ensures Atoi(s) == None && AtoiOrNearest(s) == MAX_INT64
    ensures AtoiOrNearest(['-'] + s) == -MAX_INT64 - 1
  {
    assert s[..0] == [] && ReadDigits(s[..0]) == 0;
    ScanReads(s, 0);
    ScanFrom(s, '-', 0, 0);
    assert IsDigit(s[0]) && (['-'] + s)[1..] == s;
  }

  lemma AtoiItoa(n: int)
    requires -MAX_INT64 - 1 <= n <= MAX_INT64
    ensures Atoi(Itoa(n)) == Some(n)
  {
    ReadPrintNat(if n < 0 then -n else n);
    if n < 0 {
      assert Itoa(n)[1..] == PrintNat(-n);
    }
  }

  lemma ItoaIsTight(n: int)
    ensures Tight(Itoa(n)) && Itoa(n) != []
  {
    var s := Itoa(n);
    var digits := PrintNat(if n < 0 then -n else n);
    assert s[|s| - 1] == digits[|digits| - 1];
    assert s[0] == if n < 0 then '-' else digits[0];
    VisibleIsNoSpace(s[0]);
    VisibleIsNoSpace(s[|s| - 1]);
  }

  lemma AtoiNeedsNoTrim(s: string)
    requires Atoi(s).Some?
    ensures Trim(s) == s
  {
    VisibleIsNoSpace(s[0]);
    VisibleIsNoSpace(s[|s| - 1]);
    TrimTight(s);
  }

  /** strconv.ParseBool */
  function ParseBool(s: string): Option<bool> {
    if s in {"1", "t", "T", "TRUE", "true", "True"} then Some(true)
    else if s in {"0", "f", "F", "FALSE", "false", "False"} then Some(false)
    else None
  }

  /** strconv.FormatBool */
  function FormatBool(b: bool): string {
    if b then "true" else "false"
  }

  lemma ParseBoolNeedsNoTrim(s: string)
    requires ParseBool(s).Some?
    ensures Trim(s) == s
  {
    VisibleIsNoSpace(s[0]);
    VisibleIsNoSpace(s[|s| - 1]);
    TrimTight(s);
  }
}
