/** Names of kernel parameters (early/helpers/sysctl.cc): written with dots or with slashes,
    and brought to slashes in place. */
module SysctlNames {

  const SEPARATORS := {'.', '/'}

  function SwapChar(c: char): char {
    if c == '.' then '/' else if c == '/' then '.' else c
  }

  /** The other spelling of a name. */
  function Swapped(s: string): (r: string)
    ensures |r| == |s| && forall i :: 0 <= i < |s| ==> r[i] == SwapChar(s[i])
  {
    seq(|s|, i requires 0 <= i < |s| => SwapChar(s[i]))
  }

  /** `strcspn` for the separators: how many characters come before the first. */
  function FirstSeparator(s: string): (i: nat)
    ensures i <= |s| && (i < |s| ==> s[i] in SEPARATORS) && forall j :: 0 <= j < i ==> s[j] !in SEPARATORS
  {
    if s == "" || s[0] in SEPARATORS then 0 else 1 + FirstSeparator(s[1..])
  }

  /** The name as a path: swapped as a whole when the first separator is a dot. */
  function Normalised(s: string): string {
    var i := FirstSeparator(s);
    if i < |s| && s[i] == '.' then Swapped(s) else s
  }

  lemma SwapTwice(s: string)
    ensures Swapped(Swapped(s)) == s
  {
  }

  lemma SwapKeepsFirst(s: string)
    ensures FirstSeparator(Swapped(s)) == FirstSeparator(s)
  {
    var i, j := FirstSeparator(s), FirstSeparator(Swapped(s));
    assert i < |s| ==> Swapped(s)[i] in SEPARATORS;
    assert j < |s| ==> s[j] in SEPARATORS;
  }

  /** A path is left alone. */
  lemma NormalisedTwice(s: string)
    ensures Normalised(Normalised(s)) == Normalised(s)
  {
    SwapKeepsFirst(s);
  }

  /** The first separator of a normalised name is a slash. */
  lemma NormalisedIsPath(s: string)
    ensures var n, i := Normalised(s), FirstSeparator(s);
            && FirstSeparator(n) == i && |n| == |s| && (i < |s| ==> n[i] == '/')
            && (i == |s| || s[i] == '/' ==> n == s)
            && (forall j :: 0 <= j < |s| && s[j] != '.' && s[j] != '/' ==> n[j] == s[j])
  {
    SwapKeepsFirst(s);
  }

  /** Two spellings name the same parameter exactly when they are equal or each the other with
      dots and slashes swapped. */
  lemma SameNameIff(s: string, t: string)
    ensures Normalised(s) == Normalised(t) <==> s == t || t == Swapped(s)
  {
    SwapTwice(s);
    SwapTwice(t);
    SwapKeepsFirst(s);
    SwapKeepsFirst(t);
  }

  /** `strcspn` in the buffer: the length of the text before the next separator or NUL. */
  method StrCSpn(a: array<char>, from: nat, n: nat) returns (span: nat)
    requires from <= n < a.Length && a[n] == '\0' && forall j :: 0 <= j < n ==> a[j] != '\0'
    ensures from + span <= n && (a[from + span] in SEPARATORS || from + span == n)
    ensures forall j :: from <= j < from + span ==> a[j] !in SEPARATORS
  {
    span := 0;
    while a[from + span] != '\0' && a[from + span] !in SEPARATORS
      invariant from + span <= n && forall j :: from <= j < from + span ==> a[j] !in SEPARATORS
      decreases n - span
    {
      span := span + 1;
    }
  }

  /** The separator loop of `load_sysctl`. */
  method NormaliseInPlace(a: array<char>, n: nat)
    requires n < a.Length && a[n] == '\0' && forall j :: 0 <= j < n ==> a[j] != '\0'
    modifies a
    ensures a[..n] == Normalised(old(a[..n])) && a[n..] == old(a[n..])
  {
    ghost var name := a[..n];
    var fsep := StrCSpn(a, 0, n);
    FirstIs(name, fsep);
    if a[fsep] == '\0' || a[fsep] == '/' {
      return;
    }
    var curp := 0;
    while true
      invariant curp + fsep < n && a[curp + fsep] in SEPARATORS && a[n..] == old(a[n..])
      invariant forall j :: 0 <= j < n ==> a[j] != '\0'
      invariant forall j :: 0 <= j < curp + fsep ==> a[j] == SwapChar(name[j])
      invariant forall j :: curp + fsep <= j < n ==> a[j] == name[j]
      decreases n - (curp + fsep)
    {
      if a[curp + fsep] == '.' {
        a[curp + fsep] := '/';
      } else {
        a[curp + fsep] := '.';
      }
      curp := curp + fsep + 1;
      if a[curp] == '\0' {
        break;
      }
      fsep := StrCSpn(a, curp, n);
      if a[curp + fsep] == '\0' {
        break;
      }
    }
    assert a[..n] == Swapped(name);
  }

  lemma FirstIs(s: string, i: nat)
    requires i <= |s| && (i < |s| ==> s[i] in SEPARATORS) && forall j :: 0 <= j < i ==> s[j] !in SEPARATORS
    ensures FirstSeparator(s) == i
  {
    var j := FirstSeparator(s);
    assert j < |s| ==> s[j] in SEPARATORS;
  }
}
