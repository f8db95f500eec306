/** Numbers in files: what `fgets`, `strtoull` and `%llu` do with them. */
module Numbers {
  import opened Text

  const TWO64 := 0x1_0000_0000_0000_0000
  const TWO63 := 0x8000_0000_0000_0000

  predicate IsDigit(c: char) {
    '0' <= c <= '9'
  }

  function DigitValue(c: char): nat
    requires IsDigit(c)
  {
    c as int - '0' as int
  }

  function DigitChar(d: nat): (c: char)
    requires d < 10
    ensures IsDigit(c) && DigitValue(c) == d
  {
    ('0' as int + d) as char
  }

  /** `%llu` */
  function Decimal(n: nat): (s: string)
    ensures s != "" && forall i :: 0 <= i < |s| ==> IsDigit(s[i])
    ensures n > 0 ==> s[0] != '0'
  {
    if n < 10 then [DigitChar(n)] else Decimal(n / 10) + [DigitChar(n % 10)]
  }

  /** The number that the leading digits of `s` make after those of `before`, and what follows
      them. */
  function Scan(s: string, before: nat): (nat, string) {
    if s == "" || !IsDigit(s[0]) then (before, s) else Scan(s[1..], 10 * before + DigitValue(s[0]))
  }

  function SkipBlanks(s: string): string {
    if s != "" && s[0] in BLANKS then SkipBlanks(s[1..]) else s
  }

  /** `strtoull` in base 10: the value, and where it stopped */
  function Strtoull(s: string): (nat, string) {
    var t := SkipBlanks(s);
    var u := if t != "" && (t[0] == '-' || t[0] == '+') then t[1..] else t;
    if u == "" || !IsDigit(u[0]) then (0, s)
    else
      var (n, rest) := Scan(u, 0);
      if n >= TWO64 then (TWO64 - 1, rest) else if t[0] == '-' then ((TWO64 - n) % TWO64, rest) else (n, rest)
  }

  /** `fgets` with a buffer of 32 bytes; nothing when the file is empty */
  function FirstLine(s: string, room: nat := 31): (r: string)
    ensures |r| <= room && r <= s
  {
    if s == "" || room == 0 then "" else if s[0] == '\n' then [s[0]] else [s[0]] + FirstLine(s[1..], room - 1)
  }

  /** A number read from a file, unless it is 0 or followed by junk. */
  function Number(file: Option<string>): (n: Option<nat>)
    ensures n.Some? ==> 0 < n.value < TWO64
  {
    if file.None? || FirstLine(file.value) == "" then None
    else
      var (n, rest) := Strtoull(FirstLine(file.value));
      if n == 0 || n >= TWO64 || (rest != "" && rest[0] != '\n') then None else Some(n)
  }

  lemma {:induction false} ScanAppend(s: string, before: nat, d: char, tail: string)
    requires IsDigit(d) && forall i :: 0 <= i < |s| ==> IsDigit(s[i])
    ensures Scan(s + [d] + tail, before) == Scan(tail, 10 * Scan(s, before).0 + DigitValue(d))
    ensures Scan(s, before).1 == ""
    decreases |s|
  {
    if s == "" {
      assert s + [d] + tail == [d] + tail;
    } else {
      ScanAppend(s[1..], 10 * before + DigitValue(s[0]), d, tail);
      assert (s + [d] + tail)[1..] == s[1..] + [d] + tail;
    }
  }

  lemma {:induction false} ScanDecimal(n: nat)
    ensures Scan(Decimal(n), 0) == (n, "")
  {
    if n >= 10 {
      ScanDecimal(n / 10);
      var s, d := Decimal(n / 10), DigitChar(n % 10);
      ScanAppend(s, 0, d, "");
      assert s + [d] + "" == Decimal(n);
    }
  }

  lemma {:induction false} ScanPrefix(s: string, tail: string, before: nat)
    requires (forall i :: 0 <= i < |s| ==> IsDigit(s[i])) && (tail == "" || !IsDigit(tail[0]))
    ensures Scan(s + tail, before) == (Scan(s, before).0, tail)
    decreases |s|
  {
    if s == "" {
      assert s + tail == tail;
    } else {
      ScanPrefix(s[1..], tail, 10 * before + DigitValue(s[0]));
      assert (s + tail)[1..] == s[1..] + tail;
    }
  }

  function Pow10(k: nat): nat {
    if k == 0 then 1 else 10 * Pow10(k - 1)
  }

  lemma {:induction false} DecimalLength(n: nat, k: nat)
    requires 0 < k && n < Pow10(k)
    ensures |Decimal(n)| <= k
  {
    if n >= 10 {
      DecimalLength(n / 10, k - 1);
    }
  }

  /** `s` is short enough for `fgets` and has no newline but at its end. */
  lemma {:induction false} FirstLineIsAll(s: string, room: nat)
    requires |s| <= room && forall i :: 0 <= i < |s| - 1 ==> s[i] != '\n'
    ensures FirstLine(s, room) == s
    decreases |s|
  {
    if s != "" && s[0] != '\n' {
      FirstLineIsAll(s[1..], room - 1);
    }
  }

  /** Printing a number and reading it back, with or without a newline, gives it again. */
  lemma NumberOfDecimal(n: nat, line: bool)
    requires 0 < n < TWO64
    ensures Number(Some(Decimal(n) + (if line then "\n" else ""))) == Some(n)
  {
    var s := Decimal(n) + (if line then "\n" else "");
    assert n < Pow10(20) by {
      assert Pow10(5) == 100_000 && Pow10(10) == 10_000_000_000 && Pow10(15) == 1_000_000_000_000_000;
      assert Pow10(20) == 100_000_000_000_000_000_000;
    }
    DecimalLength(n, 20);
    FirstLineIsAll(s, 31);
    ScanDecimal(n);
    ScanPrefix(Decimal(n), if line then "\n" else "", 0);
    assert IsDigit(s[0]);
  }

  /** A number with junk after it is not read. */
  lemma JunkIsRefused(n: nat, junk: string)
    requires 0 < n < TWO64 && |Decimal(n) + junk| <= 31 && '\n' !in junk
    requires junk != "" && !IsDigit(junk[0])
    ensures Number(Some(Decimal(n) + junk)) == None
  {
    var s := Decimal(n) + junk;
    assert forall i :: |Decimal(n)| <= i < |s| ==> s[i] == junk[i - |Decimal(n)|];
    FirstLineIsAll(s, 31);
    ScanDecimal(n);
    ScanPrefix(Decimal(n), junk, 0);
    assert IsDigit(s[0]);
  }
}
