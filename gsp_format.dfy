/** Byte-level vocabulary of the `.gsp` container shared by the writer and the
    loader: little-endian words, `tobytes()` of word arrays, and the typed-array
    views the loader builds over the file's bytes. */
module GspFormat {
  import opened PointCloud

  /** The fixed header: magic, count, bounding-box minimum, bounding-box maximum. */
  const HeaderSize: nat := 32

  /** ASCII "GSP1". */
  const Magic: seq<byte> := [0x47, 0x53, 0x50, 0x31]

  /** A 32-bit word (unsigned integer or float32 bit pattern) in little-endian order. */
  function U32Le(w: u32): (b: seq<byte>)
    ensures |b| == 4
  {
    var q1 := w as int / 0x100;
    var q2 := q1 / 0x100;
    var q3 := q2 / 0x100;
    [(w as int % 0x100) as byte, (q1 % 0x100) as byte, (q2 % 0x100) as byte, q3 as byte]
  }

  /** A little-endian 32-bit read at byte `off` (`DataView.getUint32(off, true)`,
      or one element of a Float32Array on a little-endian host). */
  function ReadU32Le(b: seq<byte>, off: nat): u32
    requires off + 4 <= |b|
  {
    (b[off] as int + 0x100 * (b[off + 1] as int + 0x100 * (b[off + 2] as int + 0x100 * b[off + 3] as int))) as u32
  }

  function U16Le(h: u16): (b: seq<byte>)
    ensures |b| == 2
  {
    [(h as int % 0x100) as byte, (h as int / 0x100) as byte]
  }

  function ReadU16Le(b: seq<byte>, off: nat): u16
    requires off + 2 <= |b|
  {
    (b[off] as int + 0x100 * b[off + 1] as int) as u16
  }

  lemma WordDecodesEncoding(w: u32)
    ensures ReadU32Le(U32Le(w), 0) == w
  {
  }

  lemma HalfWordDecodesEncoding(h: u16)
    ensures ReadU16Le(U16Le(h), 0) == h
  {
  }

  /** `tobytes()` of a float32 or uint32 array: each word's four bytes in turn. */
  function WordsBytes(ws: seq<u32>): (b: seq<byte>)
    ensures |b| == 4 * |ws|
  {
    if ws == [] then [] else WordsBytes(ws[..|ws| - 1]) + U32Le(ws[|ws| - 1])
  }

  /** `tobytes()` of a uint16 array. */
  function HalfWordsBytes(hs: seq<u16>): (b: seq<byte>)
    ensures |b| == 2 * |hs|
  {
    if hs == [] then [] else HalfWordsBytes(hs[..|hs| - 1]) + U16Le(hs[|hs| - 1])
  }

  /** The `n` words starting at byte `off`. */
  function WordsAt(b: seq<byte>, off: nat, n: nat): (ws: seq<u32>)
    requires off + 4 * n <= |b|
    ensures |ws| == n
  {
    if n == 0 then [] else WordsAt(b, off, n - 1) + [ReadU32Le(b, off + 4 * (n - 1))]
  }

  function HalfWordsAt(b: seq<byte>, off: nat, n: nat): (hs: seq<u16>)
    requires off + 2 * n <= |b|
    ensures |hs| == n
  {
    if n == 0 then [] else HalfWordsAt(b, off, n - 1) + [ReadU16Le(b, off + 2 * (n - 1))]
  }

  lemma SliceOfConcatLeft<T>(a: seq<T>, b: seq<T>, i: nat, j: nat)
    requires i <= j <= |a|
    ensures (a + b)[i..j] == a[i..j]
  {
  }

  lemma SliceOfConcatRight<T>(a: seq<T>, b: seq<T>, i: nat, j: nat)
    requires i <= j <= |b|
    ensures (a + b)[|a| + i..|a| + j] == b[i..j]
  {
  }

  /** Regrouping a file made of five consecutive parts around each part. */
  lemma Regroup5<T>(a: seq<T>, b: seq<T>, c: seq<T>, d: seq<T>, e: seq<T>)
    ensures a + b + c + d + e == a + (b + c + d + e)
    ensures a + b + c + d + e == a + b + (c + d + e)
    ensures a + b + c + d + e == (a + b) + c + (d + e)
    ensures a + b + c + d + e == (a + b + c) + d + e
    ensures a + b + c + d + e == (a + b + c + d) + e + []
  {
  }

  /** Regrouping a header made of four consecutive fields around each field. */
  lemma Regroup4<T>(a: seq<T>, b: seq<T>, c: seq<T>, d: seq<T>)
    ensures a + b + c + d == a + b + (c + d)
    ensures a + b + c + d == (a + b) + c + d
    ensures a + b + c + d == (a + b + c) + d + []
  {
  }

  /** The four bytes of word `k` in `tobytes()`. */
  lemma {:induction false} WordsBytesSlice(ws: seq<u32>, k: nat)
    requires k < |ws|
    ensures WordsBytes(ws)[4 * k..4 * k + 4] == U32Le(ws[k])
  {
    var init := ws[..|ws| - 1];
    assert WordsBytes(ws) == WordsBytes(init) + U32Le(ws[|ws| - 1]);
    if k < |init| {
      WordsBytesSlice(init, k);
      assert init[k] == ws[k];
      SliceOfConcatLeft(WordsBytes(init), U32Le(ws[|ws| - 1]), 4 * k, 4 * k + 4);
    } else {
      SliceOfConcatRight(WordsBytes(init), U32Le(ws[|ws| - 1]), 0, 4);
    }
  }

  lemma {:induction false} HalfWordsBytesSlice(hs: seq<u16>, k: nat)
    requires k < |hs|
    ensures HalfWordsBytes(hs)[2 * k..2 * k + 2] == U16Le(hs[k])
  {
    var init := hs[..|hs| - 1];
    assert HalfWordsBytes(hs) == HalfWordsBytes(init) + U16Le(hs[|hs| - 1]);
    if k < |init| {
      HalfWordsBytesSlice(init, k);
      assert init[k] == hs[k];
      SliceOfConcatLeft(HalfWordsBytes(init), U16Le(hs[|hs| - 1]), 2 * k, 2 * k + 2);
    } else {
      SliceOfConcatRight(HalfWordsBytes(init), U16Le(hs[|hs| - 1]), 0, 2);
    }
  }

  /** A word read only looks at its four bytes. */
  lemma ReadU32LeOfSlice(b: seq<byte>, off: nat)
    requires off + 4 <= |b|
    ensures ReadU32Le(b, off) == ReadU32Le(b[off..off + 4], 0)
  {
  }

  lemma ReadU16LeOfSlice(b: seq<byte>, off: nat)
    requires off + 2 <= |b|
    ensures ReadU16Le(b, off) == ReadU16Le(b[off..off + 2], 0)
  {
  }

  lemma SliceInBuffer<T>(pre: seq<T>, mid: seq<T>, post: seq<T>, i: nat, n: nat)
    requires i + n <= |mid|
    ensures (pre + mid + post)[|pre| + i..|pre| + i + n] == mid[i..i + n]
  {
  }

  lemma WordBytesInBuffer(pre: seq<byte>, ws: seq<u32>, post: seq<byte>, k: nat)
    requires k < |ws|
    ensures (pre + WordsBytes(ws) + post)[|pre| + 4 * k..|pre| + 4 * k + 4] == U32Le(ws[k])
  {
    SliceInBuffer(pre, WordsBytes(ws), post, 4 * k, 4);
    WordsBytesSlice(ws, k);
  }

  lemma HalfWordBytesInBuffer(pre: seq<byte>, hs: seq<u16>, post: seq<byte>, k: nat)
    requires k < |hs|
    ensures (pre + HalfWordsBytes(hs) + post)[|pre| + 2 * k..|pre| + 2 * k + 2] == U16Le(hs[k])
  {
    SliceInBuffer(pre, HalfWordsBytes(hs), post, 2 * k, 2);
    HalfWordsBytesSlice(hs, k);
  }

  /** Word `k` of `tobytes()` read back, wherever in a buffer the bytes lie. */
  lemma WordAtWordsBytes(pre: seq<byte>, ws: seq<u32>, post: seq<byte>, k: nat)
    requires k < |ws|
    ensures ReadU32Le(pre + WordsBytes(ws) + post, |pre| + 4 * k) == ws[k]
  {
    WordBytesInBuffer(pre, ws, post, k);
    ReadU32LeOfSlice(pre + WordsBytes(ws) + post, |pre| + 4 * k);
    WordDecodesEncoding(ws[k]);
  }

  lemma HalfWordAtHalfWordsBytes(pre: seq<byte>, hs: seq<u16>, post: seq<byte>, k: nat)
    requires k < |hs|
    ensures ReadU16Le(pre + HalfWordsBytes(hs) + post, |pre| + 2 * k) == hs[k]
  {
    HalfWordBytesInBuffer(pre, hs, post, k);
    ReadU16LeOfSlice(pre + HalfWordsBytes(hs) + post, |pre| + 2 * k);
    HalfWordDecodesEncoding(hs[k]);
  }

  /** Bytes appended after a word do not change it. */
  lemma ReadU32LePrefix(a: seq<byte>, b: seq<byte>, off: nat)
    requires off + 4 <= |a|
    ensures ReadU32Le(a + b, off) == ReadU32Le(a, off)
  {
    SliceOfConcatLeft(a, b, off, off + 4);
    ReadU32LeOfSlice(a + b, off);
    ReadU32LeOfSlice(a, off);
  }

  lemma {:induction false} WordsAtPrefix(a: seq<byte>, b: seq<byte>, off: nat, n: nat)
    requires off + 4 * n <= |a|
    ensures WordsAt(a + b, off, n) == WordsAt(a, off, n)
  {
    if n > 0 {
      WordsAtPrefix(a, b, off, n - 1);
      ReadU32LePrefix(a, b, off + 4 * (n - 1));
    }
  }

  /** Reading back the first `n` words of `tobytes()`, wherever in a buffer they lie. */
  lemma {:induction false} WordsAtWordsBytesPrefix(pre: seq<byte>, ws: seq<u32>, post: seq<byte>, n: nat)
    requires n <= |ws|
    ensures WordsAt(pre + WordsBytes(ws) + post, |pre|, n) == ws[..n]
  {
    if n > 0 {
      WordsAtWordsBytesPrefix(pre, ws, post, n - 1);
      WordAtWordsBytes(pre, ws, post, n - 1);
      assert ws[..n] == ws[..n - 1] + [ws[n - 1]];
    }
  }

  lemma {:induction false} HalfWordsAtHalfWordsBytesPrefix(pre: seq<byte>, hs: seq<u16>, post: seq<byte>, n: nat)
    requires n <= |hs|
    ensures HalfWordsAt(pre + HalfWordsBytes(hs) + post, |pre|, n) == hs[..n]
  {
    if n > 0 {
      HalfWordsAtHalfWordsBytesPrefix(pre, hs, post, n - 1);
      HalfWordAtHalfWordsBytes(pre, hs, post, n - 1);
      assert hs[..n] == hs[..n - 1] + [hs[n - 1]];
    }
  }

  /** Reading back the words of `tobytes()`, wherever in a buffer they lie. */
  lemma WordsAtWordsBytes(pre: seq<byte>, ws: seq<u32>, post: seq<byte>)
    ensures WordsAt(pre + WordsBytes(ws) + post, |pre|, |ws|) == ws
  {
    WordsAtWordsBytesPrefix(pre, ws, post, |ws|);
    assert ws[..|ws|] == ws;
  }

  lemma HalfWordsAtHalfWordsBytes(pre: seq<byte>, hs: seq<u16>, post: seq<byte>)
    ensures HalfWordsAt(pre + HalfWordsBytes(hs) + post, |pre|, |hs|) == hs
  {
    HalfWordsAtHalfWordsBytesPrefix(pre, hs, post, |hs|);
    assert hs[..|hs|] == hs;
  }

  /** The two RangeErrors of `new TypedArray(buffer, byteOffset, length)`. */
  datatype ViewError = OffsetNotAligned | OutOfBounds

  /** `new Float32Array(buffer, byteOffset, length)` on a little-endian host. */
  function Float32View(b: seq<byte>, byteOffset: nat, length: nat): (r: Result<seq<F32>, ViewError>)
    ensures r.Ok? <==> byteOffset % 4 == 0 && byteOffset + 4 * length <= |b|
    ensures r.Ok? ==> r.value == WordsAt(b, byteOffset, length)
  {
    if byteOffset % 4 != 0 then Err(OffsetNotAligned)
    else if byteOffset + 4 * length > |b| then Err(OutOfBounds)
    else Ok(WordsAt(b, byteOffset, length))
  }

  /** `new Uint8Array(buffer, byteOffset, length)`: any offset is aligned. */
  function Uint8View(b: seq<byte>, byteOffset: nat, length: nat): (r: Result<seq<byte>, ViewError>)
    ensures r.Ok? <==> byteOffset + length <= |b|
    ensures r.Ok? ==> r.value == b[byteOffset..byteOffset + length]
  {
    if byteOffset + length > |b| then Err(OutOfBounds)
    else Ok(b[byteOffset..byteOffset + length])
  }

  /** `new Uint16Array(buffer, byteOffset, length)` on a little-endian host. */
  function Uint16View(b: seq<byte>, byteOffset: nat, length: nat): (r: Result<seq<u16>, ViewError>)
    ensures r.Ok? <==> byteOffset % 2 == 0 && byteOffset + 2 * length <= |b|
    ensures r.Ok? ==> r.value == HalfWordsAt(b, byteOffset, length)
  {
    if byteOffset % 2 != 0 then Err(OffsetNotAligned)
    else if byteOffset + 2 * length > |b| then Err(OutOfBounds)
    else Ok(HalfWordsAt(b, byteOffset, length))
  }

  /** `DataView.getUint16(byteOffset + 2 * k, true)` for each of `length`
      consecutive values: any offset is accepted, only the bounds are checked. */
  function Uint16LeReads(b: seq<byte>, byteOffset: nat, length: nat): (r: Result<seq<u16>, ViewError>)
    ensures r.Ok? <==> byteOffset + 2 * length <= |b|
    ensures r.Ok? ==> r.value == HalfWordsAt(b, byteOffset, length)
  {
    if byteOffset + 2 * length > |b| then Err(OutOfBounds)
    else Ok(HalfWordsAt(b, byteOffset, length))
  }

  /** A block of bytes found where it was written. */
  lemma BlockInBuffer<T>(b: seq<T>, pre: seq<T>, mid: seq<T>, post: seq<T>, from: nat, to: nat)
    requires b == pre + mid + post && from == |pre| && to == |pre| + |mid|
    ensures b[from..to] == mid
  {
  }

  lemma WordsInBuffer(b: seq<byte>, pre: seq<byte>, ws: seq<u32>, post: seq<byte>, off: nat, n: nat)
    requires b == pre + WordsBytes(ws) + post && off == |pre| && n == |ws|
    ensures WordsAt(b, off, n) == ws
  {
    WordsAtWordsBytes(pre, ws, post);
  }

  lemma HalfWordsInBuffer(b: seq<byte>, pre: seq<byte>, hs: seq<u16>, post: seq<byte>, off: nat, n: nat)
    requires b == pre + HalfWordsBytes(hs) + post && off == |pre| && n == |hs|
    ensures HalfWordsAt(b, off, n) == hs
  {
    HalfWordsAtHalfWordsBytes(pre, hs, post);
  }
}
