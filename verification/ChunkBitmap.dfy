/** The bitmap of received chunks: bytes updated with shifts and masks, standing for a set of indexes. */
module ChunkBitmap {
  /** `1 << k` in a byte. */
  function Mask(k: nat): bv8
    requires k < 8
  {
    match k
    case 0 => 0x01
    case 1 => 0x02
    case 2 => 0x04
    case 3 => 0x08
    case 4 => 0x10
    case 5 => 0x20
    case 6 => 0x40
    case _ => 0x80
  }

  /** Setting one bit of a byte changes no other bit. */
  lemma SetOneBit(b: bv8, k: nat, j: nat)
    requires k < 8 && j < 8
    ensures (b | Mask(k)) & Mask(j) != 0 <==> j == k || b & Mask(j) != 0
  {
    if j == k {
      OrSets(b, Mask(k));
    } else {
      OrKeeps(b, Mask(k), Mask(j));
    }
  }

  lemma OrSets(b: bv8, m: bv8)
    requires m != 0
    ensures (b | m) & m != 0
  {
    assert (b | m) & m == m;
  }

  lemma OrKeeps(b: bv8, m: bv8, n: bv8)
    requires m & n == 0
    ensures (b | m) & n == b & n
  {
  }

  lemma AllOnes(k: nat)
    requires k < 8
    ensures (0xFF as bv8) & Mask(k) != 0 && (0 as bv8) & Mask(k) == 0
  {
  }

  /** `is_chunk_received`: the bit for index `i`. */
  predicate BitSet(bits: seq<bv8>, i: nat)
    requires i / 8 < |bits|
  {
    bits[i / 8] & Mask(i % 8) != 0
  }

  /** The chunks below `n` whose bit is set. */
  ghost function Received(bits: seq<bv8>, n: nat): (r: set<nat>)
    requires n <= 8 * |bits|
    ensures forall i :: i in r <==> 0 <= i < n && BitSet(bits, i)
  {
    set i: nat | 0 <= i < n && BitSet(bits, i) :: i
  }

  ghost function AllChunks(n: nat): (r: set<nat>)
    ensures forall i: nat :: i in r <==> i < n
  {
    if n == 0 then {} else AllChunks(n - 1) + {n - 1}
  }

  /** The bits of a bitmap for `n` chunks: whole bytes. */
  function BitmapBits(n: nat): (r: nat)
    ensures n <= r < n + 8 && r % 8 == 0
  {
    (n + 7) / 8 * 8
  }

  /** The byte update of `flag_chunk_received`. */
  function Flagged(bits: seq<bv8>, idx: nat): (r: seq<bv8>)
    requires idx / 8 < |bits|
    ensures |r| == |bits|
  {
    bits[idx / 8 := bits[idx / 8] | Mask(idx % 8)]
  }

  /** Flagging inserts exactly one index. */
  lemma FlagInserts(bits: seq<bv8>, idx: nat, n: nat)
    requires idx < n <= 8 * |bits|
    ensures Received(Flagged(bits, idx), n) == Received(bits, n) + {idx}
  {
    forall i: nat | i < n ensures BitSet(Flagged(bits, idx), i) <==> BitSet(bits, i) || i == idx {
      if i / 8 == idx / 8 {
        SetOneBit(bits[idx / 8], idx % 8, i % 8);
      }
    }
  }

  /** Filling with 0 clears the set; filling with 0xFF makes it full. */
  lemma FillIsAllOrNothing(bits: seq<bv8>, value: bv8, n: nat)
    requires n <= 8 * |bits| && (value == 0 || value == 0xFF)
    requires forall i :: 0 <= i < |bits| ==> bits[i] == value
    ensures Received(bits, n) == if value == 0 then {} else AllChunks(n)
  {
    forall i: nat | i < n ensures BitSet(bits, i) <==> value == 0xFF {
      AllOnes(i % 8);
    }
  }

  // ---- The chunks still missing --------------------------------------------------------------

  /** The indexes in [start, n) not yet received, in increasing order. */
  ghost function Missing(received: set<nat>, n: nat, start: nat): seq<nat>
    decreases n - start
  {
    if start >= n then []
    else if start in received then Missing(received, n, start + 1)
    else [start] + Missing(received, n, start + 1)
  }

  lemma {:induction false} MissingExactly(received: set<nat>, n: nat, start: nat)
    ensures forall i :: i in Missing(received, n, start) <==> start <= i < n && i !in received
    ensures forall i, j :: 0 <= i < j < |Missing(received, n, start)| ==>
              Missing(received, n, start)[i] < Missing(received, n, start)[j]
    ensures |Missing(received, n, start)| <= if start < n then n - start else 0
    decreases n - start
  {
    if start >= n {
    } else {
      MissingExactly(received, n, start + 1);
      var rest := Missing(received, n, start + 1);
      assert forall i :: 0 <= i < |rest| ==> rest[i] in rest;
    }
  }

  lemma NoneMissingIff(received: set<nat>, n: nat)
    ensures Missing(received, n, 0) == [] <==> AllChunks(n) <= received
  {
    MissingExactly(received, n, 0);
    var m := Missing(received, n, 0);
    if m != [] {
      assert m[0] in m && m[0] in AllChunks(n);
    }
    assert forall i: nat :: i < n && i !in received ==> i in m;
  }

  /** The head of the list is the least missing index. */
  lemma LeastMissing(received: set<nat>, n: nat)
    ensures var m := Missing(received, n, 0);
            m != [] ==> forall i: nat :: i < n && i !in received ==> m[0] <= i
  {
    MissingExactly(received, n, 0);
    var m := Missing(received, n, 0);
    forall i: nat | m != [] && i < n && i !in received ensures m[0] <= i {
      assert i in m;
      var k :| 0 <= k < |m| && m[k] == i;
    }
  }

  /** In an increasing list, the entries up to the `n`-th are the first `n`. */
  lemma UpToNth(m: seq<nat>, n: nat, i: nat)
    requires 0 < n <= |m| && i in m && i <= m[n - 1]
    requires forall j, k :: 0 <= j < k < |m| ==> m[j] < m[k]
    ensures i in m[..n]
  {
    var k :| 0 <= k < |m| && m[k] == i;
    assert m[..n][k] == i;
  }

  /** Nothing missing before `idx`: the search may start there. */
  lemma {:induction false} MissingSkips(received: set<nat>, n: nat, start: nat, idx: nat)
    requires start <= idx <= n && forall i :: start <= i < idx ==> i in received
    ensures Missing(received, n, start) == Missing(received, n, idx)
    decreases idx - start
  {
    if start >= idx {
    } else {
      MissingSkips(received, n, start + 1, idx);
    }
  }

  lemma {:induction false} MissingSame(a: set<nat>, b: set<nat>, n: nat, start: nat)
    requires forall i: nat :: start <= i < n ==> (i in a <==> i in b)
    ensures Missing(a, n, start) == Missing(b, n, start)
    decreases n - start
  {
    if start >= n {
    } else {
      MissingSame(a, b, n, start + 1);
    }
  }

  ghost function Elements(s: seq<nat>): (r: set<nat>)
    ensures forall x :: x in r <==> x in s
  {
    set x | x in s
  }

  /** Receiving the first `k` missing chunks leaves the others missing, in order. */
  lemma {:induction false} MissingAfterPrefix(received: set<nat>, n: nat, start: nat, k: nat)
    requires k <= |Missing(received, n, start)|
    ensures Missing(received + Elements(Missing(received, n, start)[..k]), n, start) == Missing(received, n, start)[k..]
    decreases n - start
  {
    var m := Missing(received, n, start);
    if k == 0 {
      assert received + Elements(m[..k]) == received;
    } else if start in received {
      MissingAfterPrefix(received, n, start + 1, k);
    } else {
      var m' := Missing(received, n, start + 1);
      MissingAfterPrefix(received, n, start + 1, k - 1);
      assert m[..k] == [start] + m'[..k - 1] && m[k..] == m'[k - 1..];
      MissingSame(received + Elements(m[..k]), received + Elements(m'[..k - 1]), n, start + 1);
    }
  }
}
