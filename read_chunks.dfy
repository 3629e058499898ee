/** The byte arithmetic of `VFS::read`: how many parallel reads one
    request is split into, and which bytes each of them covers. */
module ReadChunks {
  import opened Common

  /** `utils::ceil(x, y)`: x divided by y, rounded up. */
  function Ceil(x: nat, y: nat): (r: nat)
    requires y > 0
    ensures y * r >= x
    ensures r > 0 ==> y * (r - 1) < x
  {
    var q := x / y;
    assert x == y * q + x % y;
    if x % y != 0 then
      assert y * (q + 1) == y * q + y;
      q + 1
    else
      assert q > 0 ==> y * (q - 1) == y * q - y;
      q
  }

  /** The number of parallel reads: the request divided into pieces of
      at least `minParallelSize` bytes, at least one, and never more than
      the thread pool has threads. */
  function NumOps(nbytes: nat, minParallelSize: nat, poolSize: nat): (r: nat)
    requires minParallelSize > 0 && poolSize > 0
    ensures 1 <= r <= poolSize
    ensures r == poolSize || r == Max(nbytes / minParallelSize, 1)
    ensures r <= Max(nbytes / minParallelSize, 1)
    ensures r > 1 ==> r * minParallelSize <= nbytes
  {
    var r := Min(Max(nbytes / minParallelSize, 1), poolSize);
    assert r > 1 ==> r * minParallelSize <= (nbytes / minParallelSize) * minParallelSize <= nbytes;
    r
  }

  /** Bytes [begin, begin + len) of the request: read from file offset
      `offset + begin` into `buffer + begin`. */
  datatype Chunk = Chunk(begin: nat, len: nat)

  /** `cs` splits [from, to) into non-empty chunks, each starting where the
      previous one ended. */
  ghost predicate Covers(cs: seq<Chunk>, from: nat, to: nat)
    decreases |cs|
  {
    if cs == [] then from == to
    else cs[0].begin == from && cs[0].len >= 1 && Covers(cs[1..], from + cs[0].len, to)
  }

  /** Chunk `i` onward of a `k`-way split in pieces of `c` bytes, stopping
      at the first chunk that would start at or past `n`. */
  function ChunksFrom(i: nat, n: nat, k: nat, c: nat): seq<Chunk>
    decreases k - i
  {
    if i < k && i * c < n then
      [Chunk(i * c, Min((i + 1) * c, n) - i * c)] + ChunksFrom(i + 1, n, k, c)
    else
      []
  }

  /** The chunks of an `n`-byte request split `k` ways. */
  function Chunks(n: nat, k: nat): seq<Chunk>
    requires k >= 1
  {
    ChunksFrom(0, n, k, Ceil(n, k))
  }

  lemma {:induction false} ChunksFromCover(i: nat, n: nat, k: nat, c: nat)
    requires i <= k && c >= 1 && k * c >= n
    ensures Covers(ChunksFrom(i, n, k, c), Min(i * c, n), n)
    ensures |ChunksFrom(i, n, k, c)| <= k - i
    ensures forall j :: 0 <= j < |ChunksFrom(i, n, k, c)| ==> ChunksFrom(i, n, k, c)[j].begin == (i + j) * c
    decreases k - i
  {
    var cs := ChunksFrom(i, n, k, c);
    if i < k && i * c < n {
      assert (i + 1) * c == i * c + c;
      ChunksFromCover(i + 1, n, k, c);
      assert cs[1..] == ChunksFrom(i + 1, n, k, c);
      forall j | 0 <= j < |cs| ensures cs[j].begin == (i + j) * c {
        if j > 0 {
          assert cs[j] == cs[1..][j - 1];
          assert (i + 1 + (j - 1)) == i + j;
        }
      }
    }
  }

  /** The chunks partition the request exactly, in ascending order, and
      there are never more of them than the requested number of reads. */
  lemma ChunksPartition(n: nat, k: nat)
    requires k >= 1
    ensures Covers(Chunks(n, k), 0, n)
    ensures |Chunks(n, k)| <= k
    ensures n > 0 ==> |Chunks(n, k)| >= 1
  {
    var c := Ceil(n, k);
    if n == 0 {
      assert c == 0;
    } else {
      assert c >= 1;
      ChunksFromCover(0, n, k, c);
    }
  }

  /** Every byte of a covered range lies in exactly one chunk. */
  lemma {:induction false} CoversOwner(cs: seq<Chunk>, from: nat, to: nat, p: nat)
    requires Covers(cs, from, to) && from <= p < to
    ensures exists j :: 0 <= j < |cs| && cs[j].begin <= p < cs[j].begin + cs[j].len
    ensures forall j1, j2 :: 0 <= j1 < |cs| && 0 <= j2 < |cs| &&
              cs[j1].begin <= p < cs[j1].begin + cs[j1].len &&
              cs[j2].begin <= p < cs[j2].begin + cs[j2].len
              ==> j1 == j2
    decreases |cs|
  {
    CoversBounds(cs, from, to);
    if p >= from + cs[0].len {
      CoversOwner(cs[1..], from + cs[0].len, to, p);
      var j :| 0 <= j < |cs[1..]| && cs[1..][j].begin <= p < cs[1..][j].begin + cs[1..][j].len;
      assert cs[j + 1] == cs[1..][j];
      forall j1, j2 | 0 <= j1 < |cs| && 0 <= j2 < |cs| &&
          cs[j1].begin <= p < cs[j1].begin + cs[j1].len &&
          cs[j2].begin <= p < cs[j2].begin + cs[j2].len
        ensures j1 == j2
      {
        assert j1 > 0 && j2 > 0;
        assert cs[j1] == cs[1..][j1 - 1] && cs[j2] == cs[1..][j2 - 1];
      }
    } else {
      CoversBounds(cs[1..], from + cs[0].len, to);
      forall j | 0 < j < |cs| ensures cs[j].begin >= from + cs[0].len {
        assert cs[j] == cs[1..][j - 1];
      }
    }
  }

  /** Every chunk of a covered range lies inside it. */
  lemma {:induction false} CoversBounds(cs: seq<Chunk>, from: nat, to: nat)
    requires Covers(cs, from, to)
    ensures from <= to
    ensures forall j :: 0 <= j < |cs| ==> from <= cs[j].begin && cs[j].begin + cs[j].len <= to
    decreases |cs|
  {
    if cs != [] {
      CoversBounds(cs[1..], from + cs[0].len, to);
      forall j | 0 < j < |cs| ensures from <= cs[j].begin && cs[j].begin + cs[j].len <= to {
        assert cs[j] == cs[1..][j - 1];
      }
    }
  }

  /** The range vfs.cc:691-693 computes for thread `i` in uint64 arithmetic:
      inclusive bounds and the byte count `end - begin + 1` modulo 2^64. */
  datatype SourceChunk = SourceChunk(begin: int, end: int, nbytes: nat)

  function SourceChunk_(i: nat, n: nat, c: nat): SourceChunk
    requires n >= 1
  {
    var begin := i * c;
    var end := Min((i + 1) * c - 1, n - 1);
    SourceChunk(begin, end, (end - begin + 1) % UINT64_MODULUS)
  }

  /** All `k` ranges vfs.cc:690-700 hands to the thread pool. */
  function SourceChunks(n: nat, k: nat): (r: seq<SourceChunk>)
    requires n >= 1 && k >= 1
    ensures |r| == k
  {
    seq(k, i requires 0 <= i < k => SourceChunk_(i, n, Ceil(n, k)))
  }

  lemma MulMono(a: nat, b: nat, c: nat)
    requires a <= b
    ensures a * c <= b * c
  {
    assert b * c - a * c == (b - a) * c;
  }

  lemma MulSucc(a: nat, c: nat)
    ensures (a + 1) * c == a * c + c
  {
  }

  /** Thread `i`'s range is non-empty exactly when it starts inside the
      request. */
  lemma SourceChunkNonEmptyIff(i: nat, n: nat, c: nat)
    requires n >= 1 && c >= 1
    ensures SourceChunk_(i, n, c).begin <= SourceChunk_(i, n, c).end <==> i * c < n
  {
    MulSucc(i, c);
  }

  /** Every one of the source's ranges is non-empty exactly when the last
      one starts before the end of the request. */
  lemma SourceChunksNonEmptyIff(n: nat, k: nat)
    requires n >= 1 && k >= 1
    ensures (forall i :: 0 <= i < k ==> SourceChunks(n, k)[i].begin <= SourceChunks(n, k)[i].end)
            <==> (k - 1) * Ceil(n, k) < n
  {
    var c := Ceil(n, k);
    var cs := SourceChunks(n, k);
    assert c >= 1;
    if (k - 1) * c < n {
      forall i | 0 <= i < k ensures cs[i].begin <= cs[i].end {
        MulMono(i, k - 1, c);
        SourceChunkNonEmptyIff(i, n, c);
      }
    } else {
      assert cs[k - 1] == SourceChunk_(k - 1, n, c);
      SourceChunkNonEmptyIff(k - 1, n, c);
    }
  }

  /** Thread `i`'s range, when it starts inside the request, is the
      chunk [i * c, min((i + 1) * c, n)). */
  lemma SourceChunkIsChunk(i: nat, n: nat, c: nat)
    requires 1 <= n < UINT64_MODULUS && c >= 1 && i * c < n
    ensures SourceChunk_(i, n, c).begin == i * c
    ensures SourceChunk_(i, n, c).end == Min((i + 1) * c, n) - 1
    ensures SourceChunk_(i, n, c).nbytes == Min((i + 1) * c, n) - i * c
  {
    MulSucc(i, c);
  }

  /** Where the source's ranges are all non-empty (and the request fits the
      source's uint64 byte count), the chunks of the model are exactly
      those ranges. */
  lemma ChunksAgreeWithSource(n: nat, k: nat)
    requires 1 <= n < UINT64_MODULUS && k >= 1 && (k - 1) * Ceil(n, k) < n
    ensures |Chunks(n, k)| == k
    ensures forall i :: 0 <= i < k ==>
              Chunks(n, k)[i].begin == SourceChunks(n, k)[i].begin &&
              Chunks(n, k)[i].begin + Chunks(n, k)[i].len - 1 == SourceChunks(n, k)[i].end &&
              Chunks(n, k)[i].len == SourceChunks(n, k)[i].nbytes
  {
    var c := Ceil(n, k);
    assert c >= 1;
    AllChunksPresent(0, n, k, c);
    var cs := Chunks(n, k);
    forall i | 0 <= i < k
      ensures cs[i].begin == SourceChunks(n, k)[i].begin
      ensures cs[i].begin + cs[i].len - 1 == SourceChunks(n, k)[i].end
      ensures cs[i].len == SourceChunks(n, k)[i].nbytes
    {
      ChunkAt(0, n, k, c, i);
      SourceChunkIsChunk(i, n, c);
      assert SourceChunks(n, k)[i] == SourceChunk_(i, n, c);
    }
  }

  lemma {:induction false} AllChunksPresent(i: nat, n: nat, k: nat, c: nat)
    requires i <= k && (k - 1) * c < n
    ensures |ChunksFrom(i, n, k, c)| == k - i
    decreases k - i
  {
    if i < k {
      MulMono(i, k - 1, c);
      AllChunksPresent(i + 1, n, k, c);
    }
  }

  lemma {:induction false} ChunkAt(i: nat, n: nat, k: nat, c: nat, j: nat)
    requires j < |ChunksFrom(i, n, k, c)|
    ensures i + j < k && (i + j) * c < n
    ensures ChunksFrom(i, n, k, c)[j] == Chunk((i + j) * c, Min((i + j + 1) * c, n) - (i + j) * c)
    decreases k - i
  {
    if j > 0 {
      ChunkAt(i + 1, n, k, c, j - 1);
      assert ChunksFrom(i, n, k, c)[j] == ChunksFrom(i + 1, n, k, c)[j - 1];
    }
  }

  /** 5 bytes read with min_parallel_size 1 on a pool of 4 threads: the
      fourth range (vfs.cc:691-693) starts at byte 6, past its end at byte 4,
      and its byte count wraps to 2^64 - 1. */
  lemma SourceFourthChunkUnderflows()
    ensures NumOps(5, 1, 4) == 4 && Ceil(5, 4) == 2
    ensures SourceChunks(5, 4)[3] == SourceChunk(6, 4, UINT64_MODULUS - 1)
    ensures Chunks(5, 4) == [Chunk(0, 2), Chunk(2, 2), Chunk(4, 1)]
  {
    assert Ceil(5, 4) == 2;
    assert SourceChunks(5, 4)[3] == SourceChunk_(3, 5, 2);
    assert ChunksFrom(3, 5, 4, 2) == [];
    assert ChunksFrom(2, 5, 4, 2) == [Chunk(4, 1)];
    assert ChunksFrom(1, 5, 4, 2) == [Chunk(2, 2), Chunk(4, 1)];
  }
}
