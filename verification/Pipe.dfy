// pipe.c: the ring buffer. The counters are 32 bits wide and wrap.
module Pipe {
  import opened Common

  // Because PIPESIZE divides 2^32, a wrapped counter still names the right slot.
  lemma SlotOf(n: nat)
    ensures n % WORD % PIPESIZE == n % PIPESIZE
  {
    assert n == n / WORD * WORD + n % WORD;
    assert WORD == 8388608 * PIPESIZE;
    assert n == n / WORD * 8388608 * PIPESIZE + n % WORD;
  }

  // The slots of different pending bytes are different.
  lemma SlotsApart(lo: nat, j: nat, k: nat)
    requires lo <= j < k < lo + PIPESIZE
    ensures j % PIPESIZE != k % PIPESIZE
  {
  }

  // Wrapped counters tell a full pipe from an empty one.
  lemma FullTest(taken: nat, written: nat)
    requires taken <= written <= taken + PIPESIZE
    ensures written % WORD == (taken % WORD + PIPESIZE) % WORD <==> written == taken + PIPESIZE
    ensures written % WORD == taken % WORD <==> written == taken
  {
  }

  // A counter moves on by one, and wraps.
  function Bump(x: Word): Word { (x + 1) % WORD }

  lemma BumpCounts(n: nat)
    ensures Bump(n % WORD) == (n + 1) % WORD
  {
  }

  class PipeBuf {
    const data: array<char>
    var nread: Word
    var nwrite: Word
    // All bytes ever written, and how many of them were read.
    ghost var written: seq<char>
    ghost var taken: nat

    ghost predicate Valid()
      reads this, data
    {
      && data.Length == PIPESIZE
      && taken <= |written| <= taken + PIPESIZE
      && nwrite == |written| % WORD && nread == taken % WORD
      && forall k :: taken <= k < |written| ==> data[k % PIPESIZE] == written[k]
    }

    constructor ()
      ensures Valid() && fresh(data) && written == [] && taken == 0
    {
      data := new char[PIPESIZE];
      nread, nwrite, written, taken := 0, 0, [], 0;
    }

    // pipewrite while it holds the lock: bytes from i on, until all are in or
    // the pipe is full.
    method Write(addr: seq<char>, i: nat) returns (i': nat)
      requires Valid() && i <= |addr|
      modifies this`nwrite, this`written, data
      ensures Valid() && i <= i' <= |addr|
      ensures written == old(written) + addr[i..i']
      ensures i' < |addr| ==> |written| - taken == PIPESIZE
      ensures i' - i <= PIPESIZE - (|old(written)| - taken)
    {
      i' := i;
      while i' < |addr|
        invariant i <= i' <= |addr| && Valid()
        invariant written == old(written) + addr[i..i']
      {
        FullTest(taken, |written|);
        if nwrite == (nread + PIPESIZE) % WORD {
          return;
        }
        Put(addr[i']);
        assert addr[i..i' + 1] == addr[i..i'] + [addr[i']];
        i' := i' + 1;
      }
    }

    // One byte into the slot of nwrite, which moves on.
    method Put(c: char)
      requires Valid() && |written| < taken + PIPESIZE
      modifies this`nwrite, this`written, data
      ensures Valid() && written == old(written) + [c]
    {
      hide Bump;
      SlotOf(|written|);
      ghost var n := |written|;
      forall k | taken <= k < n
        ensures k % PIPESIZE != n % PIPESIZE
      {
        SlotsApart(taken, k, n);
      }
      BumpCounts(n);
      data[nwrite % PIPESIZE] := c;
      nwrite := Bump(nwrite);
      written := written + [c];
    }

    // The byte in the slot of nread, which moves on.
    method Get() returns (c: char)
      requires Valid() && taken < |written|
      modifies this`nread, this`taken
      ensures Valid() && taken == old(taken) + 1 && c == written[old(taken)]
    {
      hide Bump;
      SlotOf(taken);
      BumpCounts(taken);
      c := data[nread % PIPESIZE];
      nread := Bump(nread);
      taken := taken + 1;
    }

    // The copying loop of piperead: up to n bytes.
    method Read(n: nat) returns (addr: seq<char>)
      requires Valid()
      modifies this`nread, this`taken
      ensures Valid() && taken == old(taken) + |addr|
      ensures addr == written[old(taken)..taken]
      ensures |addr| == if n < |written| - old(taken) then n else |written| - old(taken)
    {
      addr := [];
      while |addr| < n
        invariant |addr| <= n && Valid()
        invariant taken == old(taken) + |addr| && addr == written[old(taken)..taken]
      {
        FullTest(taken, |written|);
        if nread == nwrite {
          break;
        }
        ghost var t := taken;
        var c := Get();
        assert written[old(taken)..t + 1] == written[old(taken)..t] + [written[t]];
        addr := addr + [c];
      }
    }
  }
}
