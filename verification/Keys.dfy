/**
 Replay keys and chunks: how `run_bulk` splits a batch (backend/app/core/executor.py:319-341)
 and the bound backend/app/core/keys.py puts on the keys it stores.
 */
module Keys {
  const MAX_IDEMPOTENCY_KEY_LENGTH := 200
  const MAX_STORED_KEY_LENGTH := 256
  const CHUNK_SIZE := 500

  // ---------------------------------------------------------------- decimal text

  function Digit(d: nat): char
    requires d < 10
  {
    ('0' as int + d) as char
  }

  function Decimal(n: nat): (text: string)
    ensures text != []
    ensures ':' !in text
  {
    if n < 10 then [Digit(n)] else Decimal(n / 10) + [Digit(n % 10)]
  }

  /** The reader of decimal text. */
  function ReadDecimal(text: string): int {
    if text == [] then 0
    else 10 * ReadDecimal(text[..|text| - 1]) + (text[|text| - 1] as int - '0' as int)
  }

  lemma {:induction false} DecimalReadsBack(n: nat)
    ensures ReadDecimal(Decimal(n)) == n
  {
    if n >= 10 {
      DecimalReadsBack(n / 10);
      assert Decimal(n)[..|Decimal(n)| - 1] == Decimal(n / 10);
    } else {
      assert Decimal(n)[..0] == [];
    }
  }

  function Power10(k: nat): nat {
    if k == 0 then 1 else 10 * Power10(k - 1)
  }

  lemma {:induction false} DecimalLength(n: nat, k: nat)
    requires k >= 1
    ensures n < Power10(k) <==> |Decimal(n)| <= k
  {
    if n >= 10 && k > 1 {
      DecimalLength(n / 10, k - 1);
    } else if k > 1 {
      PowersGrow(k);
    }
  }

  lemma {:induction false} PowersGrow(k: nat)
    requires k >= 1
    ensures Power10(k) >= 10
  {
    if k > 1 { PowersGrow(k - 1); }
  }

  // ---------------------------------------------------------------- stored keys

  function StoredKey(batchKey: string, chunk: nat): string {
    batchKey + ":" + Decimal(chunk)
  }

  lemma LastColonSplits(a: string, m: string, b: string, n: string)
    requires ':' !in m && ':' !in n && a + ":" + m == b + ":" + n
    ensures a == b && m == n
  {
    var left, right := a + ":" + m, b + ":" + n;
    assert left[|a|] == ':' && right[|b|] == ':';
    assert forall i | |a| < i < |left| :: left[i] == m[i - |a| - 1];
    assert forall i | |b| < i < |right| :: right[i] == n[i - |b| - 1];
    assert |a| == |b|;
    assert a == left[..|a|] && b == right[..|b|];
    assert m == left[|a| + 1..] && n == right[|b| + 1..];
  }

  /** No two (batch, chunk) pairs share a stored key, whatever colons and digits a batch key holds. */
  lemma StoredKeyIsInjective(a: string, m: nat, b: string, n: nat)
    ensures StoredKey(a, m) == StoredKey(b, n) <==> a == b && m == n
  {
    if StoredKey(a, m) == StoredKey(b, n) {
      LastColonSplits(a, Decimal(m), b, Decimal(n));
      DecimalReadsBack(m);
      DecimalReadsBack(n);
    }
  }

  /** The column holds every chunk key of the longest accepted batch key exactly up to chunk 10^55 - 1. */
  lemma StoredKeyFits(batchKey: string, chunk: nat)
    requires |batchKey| == MAX_IDEMPOTENCY_KEY_LENGTH
    ensures |StoredKey(batchKey, chunk)| <= MAX_STORED_KEY_LENGTH <==> chunk < Power10(55)
  {
    DecimalLength(chunk, 55);
  }

  lemma ShorterKeysFit(batchKey: string, chunk: nat)
    requires |batchKey| <= MAX_IDEMPOTENCY_KEY_LENGTH && chunk < Power10(55)
    ensures |StoredKey(batchKey, chunk)| <= MAX_STORED_KEY_LENGTH
  {
    DecimalLength(chunk, 55);
  }

  // ---------------------------------------------------------------- chunks

  /** `list(range(0, n, 500)) or [0]`, as a count. */
  function ChunkCount(n: nat): nat {
    if n == 0 then 1 else (n + CHUNK_SIZE - 1) / CHUNK_SIZE
  }

  /** Rows of chunk number k, counted from 1. */
  function ChunkRows<T>(rows: seq<T>, k: nat): seq<T>
    requires 1 <= k <= ChunkCount(|rows|)
  {
    var offset := (k - 1) * CHUNK_SIZE;
    if offset + CHUNK_SIZE <= |rows| then rows[offset..offset + CHUNK_SIZE] else rows[offset..]
  }

  function FirstChunks<T>(rows: seq<T>, k: nat): seq<T>
    requires k <= ChunkCount(|rows|)
  {
    if k == 0 then [] else FirstChunks(rows, k - 1) + ChunkRows(rows, k)
  }

  lemma {:induction false} FirstChunksArePrefix<T>(rows: seq<T>, k: nat)
    requires k <= ChunkCount(|rows|)
    ensures FirstChunks(rows, k) == if k * CHUNK_SIZE <= |rows| then rows[..k * CHUNK_SIZE] else rows
  {
    if k > 0 { FirstChunksArePrefix(rows, k - 1); }
  }

  /** The chunks concatenate to the batch; each holds at most 500 rows and only an empty batch has an empty one. */
  lemma ChunksPartitionRows<T>(rows: seq<T>)
    ensures FirstChunks(rows, ChunkCount(|rows|)) == rows
    ensures forall k | 1 <= k <= ChunkCount(|rows|) ::
              && |ChunkRows(rows, k)| <= CHUNK_SIZE
              && (ChunkRows(rows, k) == [] <==> rows == [])
              && (k < ChunkCount(|rows|) ==> |ChunkRows(rows, k)| == CHUNK_SIZE)
  {
    FirstChunksArePrefix(rows, ChunkCount(|rows|));
  }
}
