// The doubly linked buffer ring of bio.c: next/prev links over the buffer
// indices, with the list head as one more node.
module Ring {
  // The nodes met by following next from the head back to the head.
  function Cycle(head: nat, ring: seq<nat>): seq<nat> {
    [head] + ring + [head]
  }

  // next and prev describe the cycle head, ring[0], ring[1], ..., head.
  ghost predicate Linked(next: seq<nat>, prev: seq<nat>, head: nat, ring: seq<nat>) {
    && |next| == |prev| == head + 1
    && (forall i :: 0 <= i < |ring| ==> ring[i] < head)
    && (forall i, j :: 0 <= i < j < |ring| ==> ring[i] != ring[j])
    && var c := Cycle(head, ring);
       forall i, j :: 0 <= i && j == i + 1 && j < |c| ==> next[c[i]] == c[j] && prev[c[j]] == c[i]
  }

  // bio.c:132-133: take b, which stands between xs and ys, out of the ring.
  lemma Unlink(next: seq<nat>, prev: seq<nat>, head: nat, xs: seq<nat>, b: nat, ys: seq<nat>)
    requires Linked(next, prev, head, xs + [b] + ys) && b < head
    ensures next[b] < |prev| && prev[b] < |next| && next[b] != b
    ensures Linked(next[prev[b] := next[b]], prev[next[b] := prev[b]], head, xs + ys)
  {
    var ring := xs + [b] + ys;
    var c, c' := Cycle(head, ring), Cycle(head, xs + ys);
    var k := |xs| + 1;
    assert c[k] == b && next[b] == c[k + 1] && prev[b] == c[k - 1];
    assert ys != [] ==> c[k + 1] == ring[k];
    var next', prev' := next[prev[b] := next[b]], prev[next[b] := prev[b]];
    forall i | 0 <= i < |xs + ys|
      ensures (xs + ys)[i] == ring[if i < |xs| then i else i + 1]
    {
    }
    forall i, j | 0 <= i && j == i + 1 && j < |c'|
      ensures c'[i] <= head && c'[j] <= head
      ensures next'[c'[i]] == c'[j] && prev'[c'[j]] == c'[i]
    {
      if j < k {
        assert c'[i] == c[i] && c'[j] == c[j];
      } else if i >= k {
        assert c'[i] == c[i + 1] && c'[j] == c[j + 1];
      } else {
        assert c'[i] == c[k - 1] && c'[j] == c[k + 1];
      }
    }
  }

  // bio.c:134-137 and 50-54: put b in front.
  lemma PushFront(next: seq<nat>, prev: seq<nat>, head: nat, ring: seq<nat>, b: nat)
    requires Linked(next, prev, head, ring) && b < head && b !in ring
    ensures next[head] < |prev|
    ensures Linked(next[b := next[head]][head := b], prev[b := head][next[head] := b], head, [b] + ring)
  {
    var c, c' := Cycle(head, ring), Cycle(head, [b] + ring);
    assert c[0] == head && next[c[0]] == c[1];
    var next', prev' := next[b := next[head]][head := b], prev[b := head][next[head] := b];
    forall i, j | 0 <= i && j == i + 1 && j < |c'|
      ensures next'[c'[i]] == c'[j] && prev'[c'[j]] == c'[i]
    {
      if i > 0 {
        assert c'[j] == c[j - 1];
        if i > 1 {
          assert c'[i] == c[i - 1];
        }
      }
    }
  }

  // The ring with b moved to the front.
  function MoveFront(ring: seq<nat>, k: nat): (r: seq<nat>)
    requires k < |ring|
    ensures |r| == |ring|
    ensures multiset(r) == multiset(ring)
    ensures forall x :: x in r <==> x in ring
  {
    assert ring == ring[..k] + [ring[k]] + ring[k + 1..];
    [ring[k]] + (ring[..k] + ring[k + 1..])
  }
}
