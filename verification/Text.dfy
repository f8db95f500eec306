/** Optional values and the few text operations that several helpers share. */
module Text {

  datatype Option<+T> = None | Some(value: T)

  const NUL := '\0'

  /** What `isspace` accepts. */
  const BLANKS := {' ', '\t', '\n', '\U{b}', '\U{c}', '\r'}

  lemma BlanksAre(c: char)
    ensures c in BLANKS <==> c == ' ' || 9 <= c as int <= 13
  {
  }

  /** The position of the first `c`, or the length. */
  function Find(s: string, c: char): (i: nat)
    ensures i <= |s| && c !in s[..i] && (i < |s| ==> s[i] == c) && forall j :: 0 <= j < i ==> s[j] != c
  {
    if s == "" || s[0] == c then 0 else
      assert s[..1 + Find(s[1..], c)] == [s[0]] + s[1..][..Find(s[1..], c)];
      1 + Find(s[1..], c)
  }

  lemma FindAt(s: string, c: char, i: nat)
    requires i <= |s| && (i < |s| ==> s[i] == c) && forall j :: 0 <= j < i ==> s[j] != c
    ensures Find(s, c) == i
  {
  }

  function Last<T>(q: seq<T>): T
    requires q != []
  {
    q[|q| - 1]
  }

  /** The pieces of `s` between the separators, empty ones included: what repeated
      calls of `strsep` hand out. There is always at least one piece. */
  function Split(s: string, sep: char): (parts: seq<string>)
    ensures |parts| >= 1
    ensures forall i :: 0 <= i < |parts| ==> sep !in parts[i]
  {
    if s == "" then [""] else SplitStep(s[0], Split(s[1..], sep), sep)
  }

  /** A character in front of split text opens a new piece or joins the first one. */
  function SplitStep(c: char, rest: seq<string>, sep: char): seq<string>
    requires |rest| >= 1
  {
    if c == sep then [""] + rest else [[c] + rest[0]] + rest[1..]
  }

  lemma SplitAppendStep(c: char, rest: seq<string>, more: seq<string>, sep: char)
    requires |rest| >= 1
    ensures SplitStep(c, rest + more, sep) == SplitStep(c, rest, sep) + more
  {
    assert (rest + more)[1..] == rest[1..] + more;
  }

  /** The pieces put back together with a separator between neighbours. */
  function Join(parts: seq<string>, sep: char): string {
    if |parts| == 0 then ""
    else if |parts| == 1 then parts[0]
    else parts[0] + [sep] + Join(parts[1..], sep)
  }

  lemma {:induction false} SplitPiece(s: string, sep: char)
    requires sep !in s
    ensures Split(s, sep) == [s]
  {
    if s != "" {
      SplitPiece(s[1..], sep);
      assert [s[0]] + s[1..] == s;
    }
  }

  /** Splitting distributes over a separator. */
  lemma {:induction false} SplitAppend(a: string, b: string, sep: char)
    ensures Split(a + [sep] + b, sep) == Split(a, sep) + Split(b, sep)
  {
    if a == "" {
      assert (a + [sep] + b)[1..] == b;
    } else {
      var ab := a + [sep] + b;
      assert ab[1..] == a[1..] + [sep] + b && ab[0] == a[0];
      SplitAppend(a[1..], b, sep);
      SplitAppendStep(a[0], Split(a[1..], sep), Split(b, sep), sep);
    }
  }

  /** `Split` undoes `Join` on pieces that do not contain the separator. */
  lemma {:induction false} SplitJoin(parts: seq<string>, sep: char)
    requires |parts| > 0
    requires forall i :: 0 <= i < |parts| ==> sep !in parts[i]
    ensures Split(Join(parts, sep), sep) == parts
  {
    SplitPiece(parts[0], sep);
    if |parts| > 1 {
      SplitJoin(parts[1..], sep);
      SplitAppend(parts[0], Join(parts[1..], sep), sep);
    }
  }

  /** `Join` undoes `Split` on every string. */
  lemma {:induction false} JoinSplit(s: string, sep: char)
    ensures Join(Split(s, sep), sep) == s
  {
    if s != "" {
      JoinSplit(s[1..], sep);
      var rest := Split(s[1..], sep);
      if s[0] == sep {
        assert ([""] + rest)[1..] == rest;
      } else if |rest| > 1 {
        var parts := Split(s, sep);
        assert parts[1..] == rest[1..];
      }
      assert s == [s[0]] + s[1..];
    }
  }

  lemma {:induction false} JoinSnoc(parts: seq<string>, last: string, sep: char)
    requires |parts| > 0
    ensures Join(parts + [last], sep) == Join(parts, sep) + [sep] + last
  {
    if |parts| > 1 {
      JoinSnoc(parts[1..], last, sep);
      assert (parts + [last])[1..] == parts[1..] + [last];
    } else {
      assert (parts + [last])[1..] == [last];
    }
  }

  /** The sign of C's `strcmp`. */
  function StrCmp(a: string, b: string): (c: int)
    ensures c == 0 <==> a == b
  {
    StrCmpFrom(a, b, 0)
  }

  function StrCmpFrom(a: string, b: string, i: nat): (c: int)
    requires i <= |a| && i <= |b|
    ensures c == 0 <==> a[i..] == b[i..]
    decreases |a| - i
  {
    if i == |a| || i == |b| then (if i < |a| then 1 else if i < |b| then -1 else 0)
    else if a[i] != b[i] then
      assert a[i..][0] != b[i..][0];
      if a[i] < b[i] then -1 else 1
    else
      assert a[i..] == [a[i]] + a[i + 1..] && b[i..] == [b[i]] + b[i + 1..];
      StrCmpFrom(a, b, i + 1)
  }

  lemma StrCmpFlip(a: string, b: string)
    ensures StrCmp(b, a) < 0 <==> StrCmp(a, b) > 0
  {
    StrCmpFlipFrom(a, b, 0);
  }

  lemma {:induction false} StrCmpFlipFrom(a: string, b: string, i: nat)
    requires i <= |a| && i <= |b|
    ensures StrCmpFrom(b, a, i) < 0 <==> StrCmpFrom(a, b, i) > 0
    decreases |a| - i
  {
    if i < |a| && i < |b| && a[i] == b[i] {
      StrCmpFlipFrom(a, b, i + 1);
    }
  }

  lemma StrCmpTransitive(a: string, b: string, c: string)
    requires StrCmp(a, b) < 0 && StrCmp(b, c) < 0
    ensures StrCmp(a, c) < 0
  {
    StrCmpTransitiveFrom(a, b, c, 0);
  }

  lemma {:induction false} StrCmpTransitiveFrom(a: string, b: string, c: string, i: nat)
    requires i <= |a| && i <= |b| && i <= |c|
    requires StrCmpFrom(a, b, i) < 0 && StrCmpFrom(b, c, i) < 0
    ensures StrCmpFrom(a, c, i) < 0
    decreases |a| - i
  {
    if i < |a| && a[i] == b[i] && b[i] == c[i] {
      StrCmpTransitiveFrom(a, b, c, i + 1);
    }
  }
}
