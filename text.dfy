/** String and byte helpers with the semantics of the Python and Go library calls the
    model needs: `str.split`, `str.startswith`, `in` on strings, `int()` on decimal
    text, `str(int)`, `str.upper`, `str.strip` and `hex.EncodeToString`. */
module Text {
  import opened Wrappers

  /** A byte, as Go's `byte` / `uint8`. */
  newtype byte = x: int | 0 <= x < 256

  predicate StartsWith(s: string, prefix: string) {
    |prefix| <= |s| && s[..|prefix|] == prefix
  }

  predicate EndsWith(s: string, suffix: string) {
    |suffix| <= |s| && s[|s| - |suffix|..] == suffix
  }

  /** Python's `sub in s` on strings: `sub` occurs in `s` as a contiguous block. */
  predicate Contains(s: string, sub: string)
    decreases |s|
  {
    StartsWith(s, sub) || (|s| > 0 && Contains(s[1..], sub))
  }

  /** Number of occurrences of the character `c` (Go's `strings.Count` on a one-rune
      string, Python's `str.count` on a one-character string). */
  function Count(s: string, c: char): nat
    decreases |s|
  {
    if s == [] then 0 else (if s[0] == c then 1 else 0) + Count(s[1..], c)
  }

  /** Python's `s.split(sep)` for a non-empty separator: the pieces between the
      non-overlapping occurrences of `sep`, scanned from the left. */
  function Split(s: string, sep: string): (r: seq<string>)
    requires |sep| > 0
    ensures |r| >= 1
    decreases |s|
  {
    if |s| < |sep| then [s]
    else if s[..|sep|] == sep then [[]] + Split(s[|sep|..], sep)
    else
      var rest := Split(s[1..], sep);
      [[s[0]] + rest[0]] + rest[1..]
  }

  /** Splitting at a single character yields one piece more than there are occurrences
      of that character, and the first piece is free of it. */
  lemma {:induction false} SplitChar(s: string, c: char)
    ensures |Split(s, [c])| == Count(s, c) + 1
    ensures c !in Split(s, [c])[0]
    ensures c !in s ==> Split(s, [c]) == [s]
    decreases |s|
  {
    if |s| < 1 {
    } else if s[..1] == [c] {
      SplitChar(s[1..], c);
    } else {
      SplitChar(s[1..], c);
      assert s[0] != c;
      if c !in s {
        assert c !in s[1..];
        assert [s[0]] + s[1..] == s;
      }
    }
  }

  /** The first piece of a split never contains the separator character, so splitting
      it again leaves it whole. */
  lemma SplitFirstIsStable(s: string, c: char)
    ensures Split(Split(s, [c])[0], [c]) == [Split(s, [c])[0]]
  {
    SplitChar(s, c);
    SplitChar(Split(s, [c])[0], c);
  }

  /** Python's ASCII whitespace: space, tab, newline, vertical tab, form feed, carriage
      return and the separators 0x1C-0x1F. */
  predicate IsSpace(c: char) {
    c == ' ' || c == '\t' || c == '\n' || c == '\r' || c == '\U{B}' || c == '\U{C}'
    || ('\U{1C}' <= c <= '\U{1F}')
  }

  /** Index of the first whitespace character, or `|s|` when there is none. */
  function FirstSpace(s: string): (k: nat)
    ensures k <= |s|
    ensures forall j :: 0 <= j < k ==> !IsSpace(s[j])
    ensures k < |s| ==> IsSpace(s[k])
    decreases |s|
  {
    if s == [] || IsSpace(s[0]) then 0 else 1 + FirstSpace(s[1..])
  }

  /** Python's `s.split()` without arguments: the maximal runs of non-whitespace. */
  function Words(s: string): (r: seq<string>)
    ensures forall w :: w in r ==> w != [] && forall j :: 0 <= j < |w| ==> !IsSpace(w[j])
    decreases |s|
  {
    if s == [] then []
    else if IsSpace(s[0]) then Words(s[1..])
    else
      var k := FirstSpace(s);
      [s[..k]] + Words(s[k..])
  }

  /** Python's `str.strip()` (for the ASCII whitespace set). */
  function Strip(s: string): string
    decreases |s|
  {
    if s == [] then []
    else if IsSpace(s[0]) then Strip(s[1..])
    else if IsSpace(s[|s| - 1]) then Strip(s[..|s| - 1])
    else s
  }

  /** Python's `str.upper()` on ASCII letters; other characters are kept. */
  function ToUpper(s: string): (r: string)
    ensures |r| == |s|
    ensures forall i :: 0 <= i < |s| ==> ('a' <= s[i] <= 'z' ==> r[i] as int == s[i] as int - 32)
    ensures forall i :: 0 <= i < |s| ==> (!('a' <= s[i] <= 'z') ==> r[i] == s[i])
  {
    seq(|s|, i requires 0 <= i < |s| =>
      if 'a' <= s[i] <= 'z' then (s[i] as int - 32) as char else s[i])
  }

  predicate IsDigit(c: char) { '0' <= c <= '9' }

  predicate AllDigits(s: string) { forall i :: 0 <= i < |s| ==> IsDigit(s[i]) }

  function DigitChar(d: nat): char
    requires d < 10
  {
    ('0' as int + d) as char
  }

  /** Python's `str(n)` for a natural number: its decimal digits. */
  function NatToString(n: nat): (r: string)
    ensures |r| >= 1 && AllDigits(r)
    decreases n
  {
    if n < 10 then [DigitChar(n)] else NatToString(n / 10) + [DigitChar(n % 10)]
  }

  /** Python's `str(i)` / Go's `%d`: decimal digits with a leading '-' when negative. */
  function IntToString(i: int): string {
    if i < 0 then "-" + NatToString(-i) else NatToString(i)
  }

  function DigitsValue(s: string): nat
    requires AllDigits(s)
    decreases |s|
  {
    if s == [] then 0 else DigitsValue(s[..|s| - 1]) * 10 + (s[|s| - 1] as int - '0' as int)
  }

  /** An optional sign followed by at least one ASCII digit. */
  function ParseSigned(s: string): Option<int> {
    if |s| >= 2 && (s[0] == '-' || s[0] == '+') && AllDigits(s[1..]) then
      Some(if s[0] == '-' then -(DigitsValue(s[1..]) as int) else DigitsValue(s[1..]) as int)
    else if |s| >= 1 && AllDigits(s) then Some(DigitsValue(s))
    else None
  }

  /** Python's `int(s)` on plain decimal text: surrounding ASCII whitespace (`IsSpace`) is
      ignored, then an optional sign and at
      least one ASCII digit; `None` stands for the `ValueError` it raises otherwise.
      Digit-group underscores ("1_000"), non-ASCII digits and non-ASCII whitespace, which
      Python also accepts, are rejected here. */
  function ParseInt(s: string): Option<int> {
    ParseSigned(Strip(s))
  }

  lemma {:induction false} DigitsOfNat(n: nat)
    ensures DigitsValue(NatToString(n)) == n
    decreases n
  {
    if n >= 10 {
      DigitsOfNat(n / 10);
      var s := NatToString(n);
      assert s[..|s| - 1] == NatToString(n / 10);
    }
  }

  /** Reading back the decimal text of an integer gives that integer. */
  lemma ParseIntToString(i: int)
    ensures ParseInt(IntToString(i)) == Some(i)
  {
    var s := IntToString(i);
    if i < 0 {
      var d := NatToString(-i);
      assert s == "-" + d;
      assert IsDigit(d[|d| - 1]);
      assert Strip(s) == s;
      DigitsOfNat(-i);
      assert s[1..] == d;
    } else {
      assert IsDigit(s[0]) && IsDigit(s[|s| - 1]);
      assert Strip(s) == s;
      DigitsOfNat(i);
    }
  }

  /** Distinct naturals have distinct decimal text. */
  lemma NatToStringInjective(m: nat, n: nat)
    requires NatToString(m) == NatToString(n)
    ensures m == n
  {
    DigitsOfNat(m);
    DigitsOfNat(n);
  }

  function HexDigit(d: nat): char
    requires d < 16
  {
    if d < 10 then ('0' as int + d) as char else ('a' as int + d - 10) as char
  }

  /** Go's `hex.EncodeToString`: two lower-case hex digits per byte, high nibble first. */
  function Hex(b: seq<byte>): (r: string)
    ensures |r| == 2 * |b|
  {
    if b == [] then [] else [HexDigit(b[0] as nat / 16), HexDigit(b[0] as nat % 16)] + Hex(b[1..])
  }

  lemma {:induction false} HexAt(b: seq<byte>, i: nat)
    requires i < |b|
    ensures Hex(b)[2 * i] == HexDigit(b[i] as nat / 16)
    ensures Hex(b)[2 * i + 1] == HexDigit(b[i] as nat % 16)
    decreases i
  {
    if i > 0 {
      HexAt(b[1..], i - 1);
    }
  }

  /** Distinct byte strings have distinct hex encodings. */
  lemma HexInjective(a: seq<byte>, b: seq<byte>)
    requires Hex(a) == Hex(b)
    ensures a == b
  {
    assert |a| == |b|;
    forall i | 0 <= i < |a| ensures a[i] == b[i] {
      HexAt(a, i);
      HexAt(b, i);
      var x, y := a[i] as nat, b[i] as nat;
      assert x / 16 == y / 16 && x % 16 == y % 16;
      assert x == 16 * (x / 16) + x % 16;
      assert y == 16 * (y / 16) + y % 16;
    }
  }

  /** Joins the lines with '\n', as `"\n".join(lines)`. */
  function JoinLines(lines: seq<string>): string {
    if lines == [] then []
    else if |lines| == 1 then lines[0]
    else lines[0] + "\n" + JoinLines(lines[1..])
  }
}
