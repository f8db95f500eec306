/** Writing a value to kernel parameters (early/helpers/sysctl.cc): it is written out of the
    buffer of its line, and the newline that is added takes the place of the terminator. */
module SysctlBuffer {
  import opened Text

  /** What a parameter was written; `PastBuffer` when the buffer has no terminator left. */
  datatype Output = Text(text: string) | PastBuffer

  function WriteOf(buffer: string): Output {
    var j := Find(buffer, NUL);
    if j == |buffer| then PastBuffer else Text(buffer[..j] + "\n")
  }

  /** The buffer after a value was written out of it. */
  function Overwritten(buffer: string): string {
    var j := Find(buffer, NUL);
    if j == |buffer| then buffer else buffer[j := '\n']
  }

  function Rewritten(buffer: string, times: nat): string {
    if times == 0 then buffer else Overwritten(Rewritten(buffer, times - 1))
  }

  /** What is written the n-th time. */
  function NthWrite(buffer: string, n: nat): Output
    requires n > 0
  {
    WriteOf(Rewritten(buffer, n - 1))
  }

  function Repeat(c: char, n: nat): (r: string)
    ensures |r| == n && forall i :: 0 <= i < n ==> r[i] == c
  {
    seq(n, _ => c)
  }

  /** The terminators that follow a value directly. */
  function Room(tail: string): (n: nat)
    ensures n <= |tail| && (forall i :: 0 <= i < n ==> tail[i] == NUL) && (n < |tail| ==> tail[n] != NUL)
  {
    if tail == "" || tail[0] != NUL then 0 else 1 + Room(tail[1..])
  }

  lemma {:induction false} RewrittenInRoom(value: string, tail: string, k: nat)
    requires NUL !in value && k <= Room(tail)
    ensures Rewritten(value + tail, k) == value + Repeat('\n', k) + tail[k..]
  {
    if k == 0 {
      assert value + Repeat('\n', 0) + tail[0..] == value + tail;
    } else {
      RewrittenInRoom(value, tail, k - 1);
      OneMoreNewline(value, tail, k - 1);
    }
  }

  lemma OneMoreNewline(value: string, tail: string, k: nat)
    requires NUL !in value && k < Room(tail)
    ensures Overwritten(value + Repeat('\n', k) + tail[k..]) == value + Repeat('\n', k + 1) + tail[k + 1..]
  {
    hide Room;
    var b, j := value + Repeat('\n', k) + tail[k..], |value| + k;
    FindAt(b, NUL, j);
    var c := value + Repeat('\n', k + 1) + tail[k + 1..];
    assert |b[j := '\n']| == |c|;
    assert forall i :: 0 <= i < |c| ==> b[j := '\n'][i] == c[i];
  }

  /** Past the room, every write goes on to a terminator further away. */
  lemma {:induction false} RewrittenPastRoom(value: string, tail: string, k: nat)
    requires NUL !in value && Room(tail) <= k
    ensures var b := Rewritten(value + tail, k);
            |b| == |value + tail| && (Find(b, NUL) == |b| || Find(b, NUL) > |value| + k)
  {
    var r := Room(tail);
    if k == r {
      RewrittenInRoom(value, tail, r);
      var b := value + Repeat('\n', r) + tail[r..];
      assert forall i :: 0 <= i < |value| + r ==> b[i] != NUL;
      assert r < |tail| ==> b[|value| + r] == tail[r];
    } else {
      RewrittenPastRoom(value, tail, k - 1);
      OverwrittenFurther(Rewritten(value + tail, k - 1));
    }
  }

  lemma OverwrittenFurther(buffer: string)
    ensures var b := Overwritten(buffer);
            |b| == |buffer| && (Find(b, NUL) == |b| || Find(b, NUL) > Find(buffer, NUL))
  {
    var b, j := Overwritten(buffer), Find(buffer, NUL);
    var i := Find(b, NUL);
    assert i < |b| ==> b[i] == NUL;
  }

  lemma WriteInRoom(value: string, tail: string, n: nat)
    requires NUL !in value && 0 < n <= Room(tail)
    ensures NthWrite(value + tail, n) == Text(value + Repeat('\n', n))
  {
    hide Room;
    RewrittenInRoom(value, tail, n - 1);
    var b := value + Repeat('\n', n - 1) + tail[n - 1..];
    FindAt(b, NUL, |value| + n - 1);
    assert b[..|value| + n - 1] == value + Repeat('\n', n - 1);
    assert value + Repeat('\n', n - 1) + "\n" == value + Repeat('\n', n);
  }

  lemma WritePastRoom(value: string, tail: string, n: nat)
    requires NUL !in value && Room(tail) < n
    ensures NthWrite(value + tail, n) == PastBuffer || |NthWrite(value + tail, n).text| > |value| + n
  {
    hide Room, Rewritten;
    RewrittenPastRoom(value, tail, n - 1);
  }

  /** The n-th parameter that a value is written to gets the value and n newlines exactly when as
      many terminators follow the value: its own, and one for every blank that was stripped from
      the end of the line. */
  lemma NthIsValueIff(value: string, tail: string, n: nat)
    requires NUL !in value && n > 0
    ensures NthWrite(value + tail, n) == Text(value + Repeat('\n', n)) <==> n <= Room(tail)
  {
    hide NthWrite, Room;
    if n <= Room(tail) {
      WriteInRoom(value, tail, n);
    } else {
      WritePastRoom(value, tail, n);
      assert |value + Repeat('\n', n)| == |value| + n;
    }
  }
}
