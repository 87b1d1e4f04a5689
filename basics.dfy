/** Value types shared by the viewer model: sample and byte ranges, an
    Option type, and concatenation of equal-length blocks, which is how the
    volume buffer, the coronal and sagittal planes and the RGB display
    buffer are all laid out. */
module Basics {

  /** A signed 16-bit pixel sample (`int16_t`). */
  type Sample = x: int | -0x8000 <= x < 0x8000

  /** An 8-bit display intensity (`unsigned char`). */
  type Byte = x: int | 0 <= x < 0x100

  /** A DICOM US value (`Uint16`), such as Rows or Columns. */
  type U16 = x: int | 0 <= x < 0x1_0000

  /** A DICOM SL value (`Sint32`), such as InstanceNumber. */
  type Int32 = x: int | -0x8000_0000 <= x < 0x8000_0000

  datatype Option<T> = None | Some(value: T)

  /** The concatenation of `rows`, first row first. */
  function Concat<T>(rows: seq<seq<T>>): seq<T>
  {
    if rows == [] then [] else Concat(rows[..|rows| - 1]) + rows[|rows| - 1]
  }

  /** A buffer of `n` zero samples (what `std::vector::resize` fills in). */
  function Zeros(n: nat): (r: seq<Sample>)
    ensures |r| == n
    ensures forall i :: 0 <= i < n ==> r[i] == 0
  {
    seq(n, _ => 0)
  }

  /** A zero buffer splits into two zero buffers. */
  lemma ZerosSplit(n: nat, k: nat)
    requires k <= n
    ensures Zeros(n) == Zeros(k) + Zeros(n - k)
  {
  }

  /** Writing element `y` of `row` over the zeros that follow the first `y`
      elements already written; when that element is 0, leaving the zero
      in place gives the same state. */
  lemma PutInRun(cur: seq<Sample>, pre: seq<Sample>, row: seq<Sample>, y: nat, post: seq<Sample>)
    requires y < |row|
    requires cur == pre + row[..y] + Zeros(|row| - y) + post
    ensures |pre| + y < |cur|
    ensures cur[|pre| + y := row[y]] == pre + row[..y + 1] + Zeros(|row| - y - 1) + post
    ensures row[y] == 0 ==> cur == pre + row[..y + 1] + Zeros(|row| - y - 1) + post
  {
    assert row[..y + 1] == row[..y] + [row[y]];
    ZerosSplit(|row| - y, 1);
  }

  predicate Uniform<T>(rows: seq<seq<T>>, n: nat)
  {
    forall i :: 0 <= i < |rows| ==> |rows[i]| == n
  }

  lemma MulStep(a: nat, n: nat)
    ensures (a + 1) * n == a * n + n
  {
  }

  lemma MulMono(a: nat, b: nat, n: nat)
    requires a <= b
    ensures a * n <= b * n
  {
  }

  /** Concatenating `k` blocks of length `n` gives `k * n` elements. */
  lemma {:induction false} ConcatLength<T>(rows: seq<seq<T>>, n: nat)
    requires Uniform(rows, n)
    ensures |Concat(rows)| == |rows| * n
  {
    if rows != [] {
      var k := |rows| - 1;
      ConcatLength(rows[..k], n);
      MulStep(k, n);
    }
  }

  /** Block `z` of a concatenation of equal-length blocks sits at offset
      `z * n` and is exactly `rows[z]`. */
  lemma {:induction false} ConcatBlock<T>(rows: seq<seq<T>>, n: nat, z: nat)
    requires Uniform(rows, n)
    requires z < |rows|
    ensures |Concat(rows)| == |rows| * n
    ensures z * n + n <= |Concat(rows)|
    ensures Concat(rows)[z * n .. z * n + n] == rows[z]
  {
    ConcatLength(rows, n);
    MulStep(z, n);
    MulMono(z + 1, |rows|, n);
    var k := |rows| - 1;
    var a, b := Concat(rows[..k]), rows[k];
    ConcatLength(rows[..k], n);
    assert Concat(rows) == a + b;
    assert |a| == k * n;
    MulStep(k, n);
    if z == k {
      assert (a + b)[|a| .. |a| + |b|] == b;
    } else {
      ConcatBlock(rows[..k], n, z);
      MulStep(z, n);
      MulMono(z + 1, k, n);
      assert z * n + n <= |a|;
      assert (a + b)[z * n .. z * n + n] == a[z * n .. z * n + n];
    }
  }

  /** One more block at the end of a prefix. */
  lemma ConcatSnoc<T>(rows: seq<seq<T>>, z: nat)
    requires z < |rows|
    ensures Concat(rows[..z + 1]) == Concat(rows[..z]) + rows[z]
  {
    assert rows[..z + 1][..z] == rows[..z];
  }

  /** A zero-filled buffer of `|rows|` blocks of `n`, filled block by
      block: when the first `z` blocks are done and the rest is zero, block
      `z` is still zero, and filling it with `rows[z]` gives the state with
      `z + 1` blocks done. */
  lemma {:induction false} FillStep(rows: seq<seq<Sample>>, n: nat, z: nat, at: nat, total: nat, cur: seq<Sample>)
    requires Uniform(rows, n) && z < |rows| && total == |rows| * n && at == z * n
    requires cur == Concat(rows[..z]) + Zeros(total - at)
    ensures at + n == (z + 1) * n && at + n <= total
    ensures |cur| == total
    ensures cur[at .. at + n] == Zeros(n)
    ensures cur[..at] + rows[z] + cur[at + n..] == Concat(rows[..z + 1]) + Zeros(total - (at + n))
  {
    MulStep(z, n);
    MulMono(z + 1, |rows|, n);
    assert Uniform(rows[..z], n);
    ConcatLength(rows[..z], n);
    var done := Concat(rows[..z]);
    ZerosSplit(total - at, n);
    assert cur == done + Zeros(n) + Zeros(total - at - n);
    assert cur[..at] == done;
    assert cur[at .. at + n] == Zeros(n);
    assert cur[at + n..] == Zeros(total - at - n);
    ConcatSnoc(rows, z);
  }

  /** Element `k` of block `z` is element `z * n + k` of the concatenation. */
  lemma ConcatAt<T>(rows: seq<seq<T>>, n: nat, z: nat, k: nat)
    requires Uniform(rows, n)
    requires z < |rows| && k < n
    ensures |Concat(rows)| == |rows| * n
    ensures z * n + k < |Concat(rows)|
    ensures Concat(rows)[z * n + k] == rows[z][k]
  {
    ConcatBlock(rows, n, z);
    assert Concat(rows)[z * n .. z * n + n][k] == rows[z][k];
  }
}
