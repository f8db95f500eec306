/** The service list in a device's DINIT_WAITS_FOR property (early/helpers/devmon.cc): words
    separated by white space. */
module ServiceList {
  import opened Text

  predicate IsSpace(c: char) {
    c in BLANKS
  }

  /** `s[from..to]` is a word: it has no white space inside, and nothing else next to it. */
  ghost predicate IsWord(s: string, from: nat, to: nat) {
    && from < to <= |s|
    && (forall k :: from <= k < to ==> !IsSpace(s[k]))
    && (from == 0 || IsSpace(s[from - 1]))
    && (to == |s| || IsSpace(s[to]))
  }

  /** The words that end before `end`. */
  ghost function WordsUpTo(s: string, end: nat): set<string>
    requires end <= |s|
  {
    set i: nat, j: nat | i < j <= end && IsWord(s, i, j) :: s[i..j]
  }

  ghost function Words(s: string): set<string> {
    WordsUpTo(s, |s|)
  }

  lemma NoWordEndsInSpaces(s: string, p: nat, q: nat)
    requires p <= q <= |s| && forall k :: p <= k < q ==> IsSpace(s[k])
    ensures WordsUpTo(s, q) == WordsUpTo(s, p)
  {
    forall i: nat, j: nat | i < j <= q && IsWord(s, i, j)
      ensures j <= p
    {
      assert !IsSpace(s[j - 1]);
    }
  }

  lemma OneWordMore(s: string, q: nat, end: nat)
    requires IsWord(s, q, end)
    ensures WordsUpTo(s, end) == WordsUpTo(s, q) + {s[q..end]}
  {
    assert q > 0 ==> IsSpace(s[q - 1]);
    assert end < |s| ==> IsSpace(s[end]);
    forall i: nat, j: nat | i < j <= end && IsWord(s, i, j)
      ensures j <= q || (i == q && j == end)
    {
    }
    assert s[q..end] in WordsUpTo(s, end);
  }

  /** The loop of `handle_device_dinit` over the property. */
  method ParseServices(s: string) returns (services: set<string>)
    ensures services == Words(s)
  {
    services := {};
    var p := 0;
    while true
      invariant p <= |s| && services == WordsUpTo(s, p)
      invariant p == 0 || p == |s| || IsSpace(s[p])
      decreases |s| - p
    {
      var q := p;
      while q < |s| && IsSpace(s[q])
        invariant p <= q <= |s| && forall k :: p <= k < q ==> IsSpace(s[k])
      {
        q := q + 1;
      }
      NoWordEndsInSpaces(s, p, q);
      var sep := q;
      while sep < |s| && !IsSpace(s[sep])
        invariant q <= sep <= |s| && forall k :: q <= k < sep ==> !IsSpace(s[k])
      {
        sep := sep + 1;
      }
      if sep == q {
        return;
      }
      assert IsWord(s, q, sep);
      OneWordMore(s, q, sep);
      services := services + {s[q..sep]};
      p := sep;
    }
  }
}
