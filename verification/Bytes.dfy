/** Big-endian reads and writes on byte strings, and the 16-bit word sum that checksums are built on. */
module Bytes {
  import opened Types

  function W(p: seq<u8>, o: nat): u16
    requires o + 2 <= |p|
  {
    p[o] as int * 256 + p[o + 1] as int
  }

  function Put(p: seq<u8>, o: nat, v: u16): (q: seq<u8>)
    requires o + 2 <= |p|
    ensures |q| == |p| && W(q, o) == v
  {
    p[o := v / 256][o + 1 := v % 256]
  }

  function Addr(p: seq<u8>, o: nat): Ip4
    requires o + 4 <= |p|
  {
    Ip4(p[o], p[o + 1], p[o + 2], p[o + 3])
  }

  function PutAddr(p: seq<u8>, o: nat, a: Ip4): (q: seq<u8>)
    requires o + 4 <= |p|
    ensures |q| == |p| && Addr(q, o) == a
  {
    p[o := a.b0][o + 1 := a.b1][o + 2 := a.b2][o + 3 := a.b3]
  }

  /** Overwrite `|d|` bytes of `p` from offset `o`. */
  function WriteAt(p: seq<u8>, o: nat, d: seq<u8>): (q: seq<u8>)
    requires o + |d| <= |p|
    ensures |q| == |p| && q[o..o + |d|] == d
    ensures q[..o] == p[..o] && q[o + |d|..] == p[o + |d|..]
  {
    p[..o] + d + p[o + |d|..]
  }

  /** Sum of the big-endian 16-bit words of `p[lo..hi]`; an odd last byte is the high half of a word. */
  function Sum(p: seq<u8>, lo: nat, hi: nat): nat
    requires hi <= |p|
    decreases hi - lo
  {
    if lo >= hi then 0
    else if lo + 1 == hi then p[lo] as int * 256
    else W(p, lo) + Sum(p, lo + 2, hi)
  }

  /** Writing one aligned word changes the sum by exactly the difference of the words. */
  lemma {:induction false} SumPut(p: seq<u8>, lo: nat, hi: nat, o: nat, v: u16)
    requires lo <= o && o + 2 <= hi <= |p| && (o - lo) % 2 == 0
    ensures Sum(Put(p, o, v), lo, hi) == Sum(p, lo, hi) - W(p, o) + v
    decreases hi - lo
  {
    var q := Put(p, o, v);
    if o == lo {
      SumMoved(p, lo + 2, q, lo + 2, hi - lo - 2);
    } else {
      SumPut(p, lo + 2, hi, o, v);
    }
  }

  /** The sum depends on the bytes of the range only, wherever the range lies. */
  lemma {:induction false} SumMoved(p: seq<u8>, i: nat, q: seq<u8>, j: nat, n: nat)
    requires i + n <= |p| && j + n <= |q|
    requires p[i..i + n] == q[j..j + n]
    ensures Sum(p, i, i + n) == Sum(q, j, j + n)
    decreases n
  {
    if n >= 1 {
      assert p[i] == p[i..i + n][0] == q[j];
    }
    if n >= 2 {
      assert p[i + 1] == p[i..i + n][1] == q[j + 1];
      assert p[i + 2..i + n] == p[i..i + n][2..] == q[j + 2..j + n];
      SumMoved(p, i + 2, q, j + 2, n - 2);
    }
  }

  /** An odd last byte counts as if a zero byte followed it. */
  lemma {:induction false} SumOddTail(p: seq<u8>, lo: nat, hi: nat)
    requires lo < hi <= |p| && (hi - lo) % 2 == 1
    ensures Sum(p, lo, hi) == Sum(p[lo..hi] + [0], 0, hi - lo + 1)
    decreases hi - lo
  {
    var q := p[lo..hi] + [0];
    assert q[0] == p[lo];
    if hi - lo > 1 {
      SumOddTail(p, lo + 2, hi);
      var r := p[lo + 2..hi] + [0];
      assert q[1] == p[lo + 1] && q[2..] == r;
      assert q[2..hi - lo + 1] == r[0..hi - lo - 1];
      SumMoved(q, 2, r, 0, hi - lo - 1);
    }
  }

  /** Ranges of even length can be summed piece by piece. */
  lemma {:induction false} SumSplit(p: seq<u8>, lo: nat, mid: nat, hi: nat)
    requires lo <= mid <= hi <= |p| && (mid - lo) % 2 == 0
    ensures Sum(p, lo, hi) == Sum(p, lo, mid) + Sum(p, mid, hi)
    decreases mid - lo
  {
    if lo < mid {
      SumSplit(p, lo + 2, mid, hi);
    }
  }

  /** Replacing an aligned 32-bit field changes the sum by the difference of its two words. */
  lemma SumPutAddr(p: seq<u8>, lo: nat, hi: nat, o: nat, a: Ip4)
    requires lo <= o && o + 4 <= hi <= |p| && (o - lo) % 2 == 0
    ensures Sum(PutAddr(p, o, a), lo, hi)
         == Sum(p, lo, hi) - Addr(p, o).Hi() - Addr(p, o).Lo() + a.Hi() + a.Lo()
  {
    var p1 := Put(p, o, a.Hi());
    SumPut(p, lo, hi, o, a.Hi());
    SumPut(p1, lo, hi, o + 2, a.Lo());
    assert Put(p1, o + 2, a.Lo()) == PutAddr(p, o, a);
  }
}
