/** The buffer a path is built in: filled from its end, doubled and shifted when full (fuse/fuse.c:438-469). */
module PathBuffer {
  const MAX_SIZE: nat := 0xffff_ffff

  /** The doubling loop of add_name, in 32-bit unsigned arithmetic with saturation. */
  method Enlarge(size: nat, needed: nat) returns (newsize: nat)
    requires 0 < size <= MAX_SIZE && needed <= MAX_SIZE
    ensures needed <= newsize <= MAX_SIZE && size <= newsize
  {
    newsize := size;
    while newsize < needed
      invariant size <= newsize <= MAX_SIZE
      decreases MAX_SIZE - newsize
    {
      if newsize >= 0x8000_0000 { newsize := MAX_SIZE; } else { newsize := newsize * 2; }
    }
  }

  /** The size after n turns of that loop. */
  function Doubled(size: nat, n: nat): nat {
    if n == 0 then size
    else
      var m := Doubled(size, n - 1);
      if m >= 0x8000_0000 then MAX_SIZE else 2 * m
  }

  /** The loop comes to an end if and only if there is such a size at all. */
  lemma EnlargeEnds(size: nat, needed: nat)
    requires 0 < size <= MAX_SIZE
    ensures (exists n: nat :: Doubled(size, n) >= needed) <==> needed <= MAX_SIZE
  {
    forall n: nat ensures Doubled(size, n) <= MAX_SIZE { StaysInRange(size, n); }
    var n := TurnsToMax(size, 0);
  }

  lemma {:induction false} StaysInRange(size: nat, n: nat)
    requires 0 < size <= MAX_SIZE
    ensures 0 < Doubled(size, n) <= MAX_SIZE
    decreases n
  {
    if n > 0 { StaysInRange(size, n - 1); }
  }

  /** It is the largest after some turns. */
  lemma {:induction false} TurnsToMax(size: nat, n: nat) returns (m: nat)
    requires 0 < size <= MAX_SIZE && Doubled(size, n) <= MAX_SIZE
    ensures Doubled(size, m) == MAX_SIZE
    decreases MAX_SIZE - Doubled(size, n)
  {
    StaysInRange(size, n);
    StaysInRange(size, n + 1);
    if Doubled(size, n) == MAX_SIZE { m := n; } else { m := TurnsToMax(size, n + 1); }
  }

  /** realloc to newsize bytes and memmove of the text to the new end. */
  method Grow(buf: array<char>, s: nat, newsize: nat) returns (newbuf: array<char>, start: nat)
    requires s <= buf.Length <= newsize
    ensures fresh(newbuf) && newbuf.Length == newsize && start == newsize - (buf.Length - s)
    ensures newbuf[start..] == buf[s..]
  {
    var pathlen := buf.Length - s;
    newbuf, start := new char[newsize], newsize - pathlen;
    forall i | 0 <= i < buf.Length { newbuf[i] := buf[i]; }
    forall i | 0 <= i < pathlen { newbuf[start + i] := newbuf[s + i]; }
  }

  /** strncpy of name in front of the text, and the separator in front of that. */
  method Prepend(buf: array<char>, s: nat, name: string) returns (start: nat)
    requires |name| < s <= buf.Length
    modifies buf
    ensures start == s - |name| - 1 && buf[start..] == ['/'] + name + old(buf[s..])
  {
    start := s - |name|;
    forall i | 0 <= i < |name| { buf[start + i] := name[i]; }
    start := start - 1;
    buf[start] := '/';
    assert buf[start..] == [buf[start]] + buf[start + 1..s] + buf[s..];
    assert buf[start + 1..s] == name;
  }

  /** add_name: put "/" and name in front of the text buf[s..], in a larger buffer if need be. The
      allocation may fail. */
  method AddName(buf: array<char>, s: nat, name: string) returns (ok: bool, newbuf: array<char>, start: nat)
    requires 0 < buf.Length <= MAX_SIZE && s <= buf.Length
    requires buf.Length - s + |name| + 1 <= MAX_SIZE
    modifies buf
    ensures newbuf == buf || fresh(newbuf)
    ensures 0 < newbuf.Length <= MAX_SIZE && start <= newbuf.Length
    ensures ok ==> newbuf[start..] == ['/'] + name + old(buf[s..])
  {
    newbuf, start := buf, s;
    if s <= |name| {
      var newsize := Enlarge(buf.Length, buf.Length - s + |name| + 1);
      if * { return false, buf, s; }
      newbuf, start := Grow(buf, s, newsize);
    }
    start := Prepend(newbuf, start, name);
    ok := true;
  }
}
