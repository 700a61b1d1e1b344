/** Strings as the server handles them: Go's TrimSpace, Cut, LastIndexByte and
    the decimal forms of 64-bit integers. */
module Strings {

  import opened Basics

  // ------------------------------------------------------------------ trimming

  /** Go's unicode.IsSpace: the White_Space property. */
  predicate IsSpace(c: char) {
    c in "\t\n\U{000B}\U{000C}\r \U{0085}\U{00A0}\U{1680}\U{2028}\U{2029}\U{202F}\U{205F}\U{3000}"
    || '\U{2000}' <= c <= '\U{200A}'
  }

  function TrimLeft(s: string): string {
    if s != "" && IsSpace(s[0]) then TrimLeft(s[1..]) else s
  }

  function TrimRight(s: string): string {
    if s != "" && IsSpace(s[|s| - 1]) then TrimRight(s[..|s| - 1]) else s
  }

  function Trim(s: string): string {
    TrimRight(TrimLeft(s))
  }

  predicate Trimmed(s: string) {
    s == "" || (!IsSpace(s[0]) && !IsSpace(s[|s| - 1]))
  }

  /** The part of a text from i to j has only blanks around it. */
  ghost predicate IsWithin(blank: char -> bool, s: string, i: nat, j: nat) {
    i <= j <= |s| && forall k :: 0 <= k < i || j <= k < |s| ==> blank(s[k])
  }

  lemma {:induction false} TrimLeftDrops(s: string) returns (i: nat)
    ensures IsWithin(IsSpace, s, i, |s|) && TrimLeft(s) == s[i..]
  {
    i := 0;
    if s != "" && IsSpace(s[0]) {
      i := TrimLeftDrops(s[1..]);
      i := i + 1;
    }
  }

  lemma {:induction false} TrimRightDrops(s: string) returns (j: nat)
    ensures IsWithin(IsSpace, s, 0, j) && TrimRight(s) == s[..j]
  {
    j := |s|;
    if s != "" && IsSpace(s[|s| - 1]) {
      j := TrimRightDrops(s[..|s| - 1]);
    }
  }

  /** Trimming drops white space around a trimmed text and nothing else. */
  lemma TrimDropsSpaces(s: string) returns (i: nat, j: nat)
    ensures Trimmed(Trim(s)) && IsWithin(IsSpace, s, i, j) && Trim(s) == s[i..j]
  {
    TrimIsTrimmed(s);
    i := TrimLeftDrops(s);
    j := TrimRightDrops(s[i..]);
    j := i + j;
  }

  lemma TrimLeftStarts(s: string)
    ensures TrimLeft(s) == "" || !IsSpace(TrimLeft(s)[0])
  {}

  lemma {:induction false} TrimRightKeepsHead(s: string)
    requires s == "" || !IsSpace(s[0])
    ensures Trimmed(TrimRight(s))
  {
    if s != "" && IsSpace(s[|s| - 1]) {
      TrimRightKeepsHead(s[..|s| - 1]);
    }
  }

  /** Trimming yields a trimmed string and changes nothing else. */
  lemma TrimIsTrimmed(s: string)
    ensures Trimmed(Trim(s))
    ensures Trimmed(s) <==> Trim(s) == s
  {
    TrimLeftStarts(s);
    TrimRightKeepsHead(TrimLeft(s));
  }

  // ------------------------------------------------------------------ searching

  ghost predicate OccursAt(s: string, sep: string, i: nat) {
    i + |sep| <= |s| && s[i..i + |sep|] == sep
  }

  ghost predicate Contains(s: string, sep: string) {
    exists i: nat :: OccursAt(s, sep, i)
  }

  /** The first occurrence of sep at or after from. */
  function IndexFrom(s: string, sep: string, from: nat): (r: Option<nat>)
    requires from <= |s|
    ensures r.None? ==> forall i: nat :: from <= i ==> !OccursAt(s, sep, i)
    ensures r.Some? ==> from <= r.value && OccursAt(s, sep, r.value)
    ensures r.Some? ==> forall i: nat :: from <= i < r.value ==> !OccursAt(s, sep, i)
    decreases |s| - from
  {
    if from + |sep| > |s| then None
    else if s[from..from + |sep|] == sep then Some(from)
    else IndexFrom(s, sep, from + 1)
  }

  datatype CutResult = CutResult(before: string, after: string, found: bool)

  /** Go's strings.Cut: split around the first occurrence of sep. */
  function Cut(s: string, sep: string): CutResult {
    match IndexFrom(s, sep, 0)
    case None => CutResult(s, "", false)
    case Some(i) => CutResult(s[..i], s[i + |sep|..], true)
  }

  /** Cutting recovers the two halves exactly when the separator between them
      is the first one. */
  lemma CutJoined(a: string, sep: string, b: string)
    requires sep != ""
    ensures Cut(a + sep + b, sep) == CutResult(a, b, true)
            <==> forall i: nat :: i < |a| ==> !OccursAt(a + sep + b, sep, i)
  {
    var s := a + sep + b;
    assert s[|a|..|a| + |sep|] == sep;
    assert OccursAt(s, sep, |a|);
    var i := IndexFrom(s, sep, 0).value;
    if i == |a| {
      assert s[..i] == a && s[i + |sep|..] == b;
    } else {
      assert |s[..i]| == i;
    }
  }

  /** A text without the separator's first character ends at the separator. */
  lemma CutFirst(a: string, sep: string, b: string)
    requires sep != "" && sep[0] !in a
    ensures Cut(a + sep + b, sep) == CutResult(a, b, true)
  {
    var s := a + sep + b;
    forall i: nat | i < |a| ensures !OccursAt(s, sep, i) {
      assert s[i] == a[i] != sep[0];
      if i + |sep| <= |s| {
        assert s[i..i + |sep|][0] == s[i];
      }
    }
    CutJoined(a, sep, b);
  }

  lemma CutCharFree(a: string, sep: char, b: string)
    requires sep !in a
    ensures Cut(a + [sep] + b, [sep]) == CutResult(a, b, true)
  {
    CutFirst(a, [sep], b);
  }

  /** Go's strings.LastIndexByte. */
  function LastIndex(s: string, c: char): (r: Option<nat>)
    ensures r.None? ==> c !in s
    ensures r.Some? ==> r.value < |s| && s[r.value] == c && c !in s[r.value + 1..]
  {
    if s == "" then None
    else if s[|s| - 1] == c then Some(|s| - 1)
    else
      var r := LastIndex(s[..|s| - 1], c);
      assert r.Some? ==> s[r.value + 1..] == s[..|s| - 1][r.value + 1..] + [s[|s| - 1]];
      r
  }

  lemma LastIndexJoined(a: string, c: char, b: string)
    requires c !in b
    ensures LastIndex(a + [c] + b, c) == Some(|a|)
  {
    var s := a + [c] + b;
    assert s[|a|] == c;
    var r := LastIndex(s, c).value;
    forall k | r < k < |s| ensures s[k] != c {
      assert s[k] in s[r + 1..];
    }
    forall k | |a| < k < |s| ensures s[k] != c {
      assert s[k] == b[k - |a| - 1];
    }
  }

  // ------------------------------------------------------------------ decimals

  const MAX_INT64: int := 0x7FFF_FFFF_FFFF_FFFF
  const MIN_INT64: int := -0x8000_0000_0000_0000

  predicate IsDigit(c: char) {
    '0' <= c <= '9'
  }

  predicate AllDigits(s: string) {
    forall c :: c in s ==> IsDigit(c)
  }

  function Digit(d: nat): (c: char)
    requires d < 10
    ensures IsDigit(c) && c as int - '0' as int == d
  {
    '0' + d as char
  }

  function Digits(n: nat): (s: string)
    ensures s != "" && AllDigits(s)
  {
    if n < 10 then [Digit(n)] else Digits(n / 10) + [Digit(n % 10)]
  }

  function Value(s: string): nat
    requires AllDigits(s)
  {
    if s == "" then 0
    else
      assert s[|s| - 1] in s;
      Value(s[..|s| - 1]) * 10 + (s[|s| - 1] as int - '0' as int)
  }

  /** Go's strconv.FormatInt in base 10. */
  function FormatInt(i: int): string {
    if i < 0 then "-" + Digits(-i) else Digits(i)
  }

  /** Go's strconv.ParseInt in base 10 and 64 bits: an optional sign, at least
      one digit, nothing else, and a value in range. */
  function ParseInt(s: string): Option<int> {
    var negative := s != "" && s[0] == '-';
    var digits := if s != "" && (s[0] == '-' || s[0] == '+') then s[1..] else s;
    if digits == "" || !AllDigits(digits) then None
    else
      var magnitude: int := Value(digits);
      var value := if negative then -magnitude else magnitude;
      if MIN_INT64 <= value <= MAX_INT64 then Some(value) else None
  }

  lemma {:induction false} ValueOfDigits(n: nat)
    ensures Value(Digits(n)) == n
  {
    if n >= 10 {
      ValueOfDigits(n / 10);
      var s := Digits(n);
      assert s[..|s| - 1] == Digits(n / 10);
    }
  }

  /** What parses is a sign or none and then digits, the value of which fits 64 bits. */
  lemma ParsedInteger(s: string, digits: string, i: int)
    requires digits != "" && AllDigits(digits)
    ensures s == digits || s == "+" + digits ==>
      (ParseInt(s) == Some(i) <==> i == Value(digits) <= 0x7FFF_FFFF_FFFF_FFFF)
    ensures s == "-" + digits ==> (ParseInt(s) == Some(i) <==> i + Value(digits) == 0 && i >= -0x8000_0000_0000_0000)
  {
    assert digits[0] in digits;
    assert s == "+" + digits || s == "-" + digits ==> s[1..] == digits;
  }

  lemma ParsedHasDigits(s: string) returns (digits: string)
    requires ParseInt(s).Some?
    ensures digits != "" && AllDigits(digits)
    ensures s == digits || s == "+" + digits || s == "-" + digits
  {
    digits := if s[0] == '-' || s[0] == '+' then s[1..] else s;
    assert s == [s[0]] + s[1..];
  }

  /** A digit more is ten times the value and the digit. */
  lemma ValueOfMore(s: string, c: char)
    requires AllDigits(s) && '0' <= c <= '9'
    ensures AllDigits(s + [c]) && Value(s + [c]) == 10 * Value(s) + (c as int - 48)
  {
    assert (s + [c])[..|s|] == s;
  }

  /** Every 64-bit integer survives printing and parsing. */
  lemma DecimalRoundTrip(i: int)
    requires MIN_INT64 <= i <= MAX_INT64
    ensures ParseInt(FormatInt(i)) == Some(i)
  {
    ValueOfDigits(if i < 0 then -i else i);
    if i < 0 {
      assert FormatInt(i)[1..] == Digits(-i);
    } else {
      assert FormatInt(i)[0] in Digits(i);
    }
  }

  lemma FormatIsDigits(i: int)
    requires i >= 0
    ensures FormatInt(i) != "" && AllDigits(FormatInt(i))
    ensures forall c :: c in FormatInt(i) ==> c !in "_/-:"
  {}
}
