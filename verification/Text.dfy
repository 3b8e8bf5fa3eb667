/** String helpers of the Go standard library that the drivers rely on. */
module Text {

  /** `unicode.IsSpace`. */
  predicate IsSpace(c: char) {
    || c == ' ' || c == '\t' || c == '\n' || c == '\r'
    || c == '\U{000B}' || c == '\U{000C}' || c == '\U{0085}' || c == '\U{00A0}'
    || c == '\U{1680}' || '\U{2000}' <= c <= '\U{200A}'
    || c == '\U{2028}' || c == '\U{2029}' || c == '\U{202F}'
    || c == '\U{205F}' || c == '\U{3000}'
  }

  function TrimLeft(s: string): (t: string)
    ensures t != [] ==> !IsSpace(t[0])
  {
    if s != [] && IsSpace(s[0]) then TrimLeft(s[1..]) else s
  }

  function TrimRight(s: string): (t: string)
    ensures t != [] ==> !IsSpace(t[|t| - 1])
    ensures |t| <= |s| && t == s[..|t|]
  {
    if s != [] && IsSpace(s[|s| - 1]) then TrimRight(s[..|s| - 1]) else s
  }

  ghost predicate Trimmed(s: string) {
    s != [] ==> !IsSpace(s[0]) && !IsSpace(s[|s| - 1])
  }

  /** `strings.TrimSpace`. */
  function Trim(s: string): (t: string)
    ensures Trimmed(t)
    ensures Trimmed(s) ==> t == s
  {
    TrimRight(TrimLeft(s))
  }

  lemma {:induction false} TrimLeftPad(c: char, s: string)
    requires IsSpace(c)
    ensures Trim([c] + s) == Trim(s)
  {
    assert ([c] + s)[1..] == s;
  }

  lemma {:induction false} TrimLeftOf(s: string, c: char)
    requires IsSpace(c)
    ensures TrimLeft(s + [c]) == (if TrimLeft(s) == "" then "" else TrimLeft(s) + [c])
  {
    if s == [] {
      assert ([] + [c])[1..] == [];
      assert s + [c] == [c];
    } else if IsSpace(s[0]) {
      TrimLeftOf(s[1..], c);
      assert (s + [c])[1..] == s[1..] + [c];
    }
  }

  lemma TrimRightPad(s: string, c: char)
    requires IsSpace(c)
    ensures Trim(s + [c]) == Trim(s)
  {
    TrimLeftOf(s, c);
    var t := TrimLeft(s);
    assert (t + [c])[..|t|] == t;
  }

  lemma {:induction false} TrimLeftKeeps(s: string)
    ensures forall c :: c in TrimLeft(s) ==> c in s
  {
    if s != [] && IsSpace(s[0]) {
      TrimLeftKeeps(s[1..]);
      assert forall c :: c in s[1..] ==> c in s;
    }
  }

  /** Trimming adds no character. */
  lemma TrimKeeps(s: string)
    ensures forall c :: c in Trim(s) ==> c in s
  {
    TrimLeftKeeps(s);
    var t := TrimLeft(s);
    assert forall c :: c in t[..|TrimRight(t)|] ==> c in t;
  }

  // ----- strconv.ParseInt / FormatInt, base 10, 64 bits -----

  const MAX_INT64: int := 0x7FFF_FFFF_FFFF_FFFF
  const MIN_INT64: int := -0x8000_0000_0000_0000
  const MAX_UINT64: int := 0xFFFF_FFFF_FFFF_FFFF

  predicate IsDigit(c: char) { '0' <= c <= '9' }

  function DigitValue(c: char): (d: nat)
    requires IsDigit(c)
    ensures d < 10
  {
    (c as int) - ('0' as int)
  }

  function DigitChar(d: nat): (c: char)
    requires d < 10
    ensures IsDigit(c) && DigitValue(c) == d
  {
    (('0' as int) + d) as char
  }

  predicate AllDigits(s: string) {
    s == [] || (IsDigit(s[|s| - 1]) && AllDigits(s[..|s| - 1]))
  }

  function Magnitude(s: string): nat
    requires AllDigits(s)
  {
    if s == [] then 0 else 10 * Magnitude(s[..|s| - 1]) + DigitValue(s[|s| - 1])
  }

  /** The end of the digits that follow the first n characters, which are digits. */
  function DigitRun(s: string, n: nat): (k: nat)
    requires n <= |s| && AllDigits(s[..n])
    ensures n <= k <= |s| && AllDigits(s[..k])
    ensures k < |s| ==> !IsDigit(s[k])
    decreases |s| - n
  {
    if n < |s| && IsDigit(s[n]) then
      assert s[..n + 1][..n] == s[..n];
      DigitRun(s, n + 1)
    else n
  }

  lemma {:induction false} DigitAt(s: string, k: nat)
    requires AllDigits(s) && k < |s|
    ensures IsDigit(s[k])
  {
    if k < |s| - 1 {
      DigitAt(s[..|s| - 1], k);
    }
  }

  /** `v, _ := strconv.ParseInt(s, 10, 64)`: digits beyond 64 bits make it the nearest bound,
      whatever follows them; otherwise a malformed number is 0, and one that does not fit is the
      nearest bound. */
  function ParseInt(s: string): (v: int)
    ensures MIN_INT64 <= v <= MAX_INT64
  {
    var signed := s != [] && (s[0] == '-' || s[0] == '+');
    var body := if signed then s[1..] else s;
    var run := DigitRun(body, 0);
    var magnitude: int := Magnitude(body[..run]);
    if body == [] || (run < |body| && magnitude <= MAX_UINT64) then 0
    else if s[0] == '-' then (if magnitude > -MIN_INT64 then MIN_INT64 else -magnitude)
    else if magnitude > MAX_INT64 then MAX_INT64 else magnitude
  }

  function Digits(n: nat): (s: string)
    ensures s != [] && IsDigit(s[0]) && AllDigits(s) && Magnitude(s) == n
  {
    if n < 10 then [DigitChar(n)]
    else
      var s := Digits(n / 10) + [DigitChar(n % 10)];
      assert s[..|s| - 1] == Digits(n / 10);
      s
  }

  /** `strconv.FormatInt(v, 10)`. */
  function FormatInt(v: int): string {
    if v < 0 then "-" + Digits(-v) else Digits(v)
  }

  lemma FormatIsTrimmed(v: int)
    ensures FormatInt(v) != [] && Trimmed(FormatInt(v))
  {
    var s := FormatInt(v);
    var digits := Digits(if v < 0 then -v else v);
    assert s[|s| - 1] == digits[|digits| - 1];
    assert IsDigit(digits[0]);
  }

  lemma DigitsRun(s: string)
    requires AllDigits(s)
    ensures DigitRun(s, 0) == |s| && s[..|s|] == s
  {
    var k := DigitRun(s, 0);
    if k < |s| {
      DigitAt(s, k);
    }
  }

  lemma ParseFormat(v: int)
    requires MIN_INT64 <= v <= MAX_INT64
    ensures ParseInt(FormatInt(v)) == v
  {
    var digits := Digits(if v < 0 then -v else v);
    DigitsRun(digits);
    if v < 0 {
      assert FormatInt(v)[1..] == digits;
    } else {
      assert IsDigit(digits[0]);
    }
  }
}
