// An image file as bytes, and as consecutive sectors of one size.
module FlatImage {
  import opened Basics

  // Overwrite part of a file, as a seek followed by a write does.
  function WriteAt(file: seq<Byte>, offset: nat, data: seq<Byte>): (r: seq<Byte>)
    requires offset + |data| <= |file|
    ensures |r| == |file|
  {
    file[..offset] + data + file[offset + |data|..]
  }

  predicate HasSector(file: seq<Byte>, size: nat, k: nat) {
    k * size + size <= |file|
  }

  function Sector(file: seq<Byte>, size: nat, k: nat): (r: seq<Byte>)
    requires HasSector(file, size, k)
    ensures |r| == size
  {
    file[k * size..k * size + size]
  }

  lemma SectorsInOrder(size: nat, a: nat, b: nat)
    requires a < b
    ensures a * size + size <= b * size
    ensures a * size + size == (a + 1) * size
  {
    assert b * size == a * size + (b - a) * size;
    assert (b - a) * size >= size by { MultipleIsAtLeast(b - a, size); }
  }

  lemma MultipleIsAtLeast(n: nat, size: nat)
    requires n >= 1
    ensures n * size >= size
  {
    assert n * size == (n - 1) * size + size;
  }

  lemma LowerSectorsExist(file: seq<Byte>, size: nat, n: nat, k: nat)
    requires k < n && n * size <= |file|
    ensures HasSector(file, size, k)
  {
    SectorsInOrder(size, k, n);
  }

  lemma SectorOutsideWrite(file: seq<Byte>, size: nat, first: nat, n: nat, data: seq<Byte>, k: nat)
    requires |data| <= n * size && first * size + n * size <= |file| && HasSector(file, size, k)
    requires k < first || first + n <= k
    ensures first * size + |data| <= |file|
    ensures Sector(WriteAt(file, first * size, data), size, k) == Sector(file, size, k)
  {
    assert (first + n) * size == first * size + n * size;
    if k < first {
      SectorsInOrder(size, k, first);
    } else if first + n < k {
      SectorsInOrder(size, first + n, k);
    }
    var after := WriteAt(file, first * size, data);
    assert forall p :: k * size <= p < k * size + size ==> after[p] == file[p];
  }

  lemma SectorInsideWrite(file: seq<Byte>, size: nat, first: nat, n: nat, data: seq<Byte>, k: nat)
    requires |data| == n * size && first * size + n * size <= |file|
    requires first <= k < first + n
    ensures HasSector(file, size, k) && HasSector(data, size, k - first)
    ensures Sector(WriteAt(file, first * size, data), size, k) == Sector(data, size, k - first)
  {
    SectorsInOrder(size, k - first, n);
    assert k * size == first * size + (k - first) * size;
    var after := WriteAt(file, first * size, data);
    var o := (k - first) * size;
    assert forall p :: o <= p < o + size ==> after[first * size + p] == data[p];
    assert after[k * size..k * size + size] == data[o..o + size];
  }

  lemma SectorOfSlice(file: seq<Byte>, size: nat, first: nat, n: nat, k: nat)
    requires first * size + n * size <= |file| && k < n
    ensures HasSector(file, size, first + k)
    ensures HasSector(file[first * size..first * size + n * size], size, k)
    ensures Sector(file[first * size..first * size + n * size], size, k) == Sector(file, size, first + k)
  {
    SectorsInOrder(size, k, n);
    assert (first + k) * size == first * size + k * size;
    var slice := file[first * size..first * size + n * size];
    var base, o := first * size, k * size;
    assert forall p :: o <= p < o + size ==> slice[p] == file[base + p];
    assert slice[o..o + size] == file[base + o..base + o + size];
  }

  // Files with the same first n sectors have the same first n * size bytes.
  lemma {:induction false} SameSectorsSameBytes(a: seq<Byte>, b: seq<Byte>, size: nat, n: nat)
    requires n * size <= |a| && n * size <= |b|
    requires forall k: nat :: k < n ==>
               HasSector(a, size, k) && HasSector(b, size, k) && Sector(a, size, k) == Sector(b, size, k)
    ensures a[..n * size] == b[..n * size]
    decreases n
  {
    if n > 0 {
      SectorsInOrder(size, n - 1, n);
      SameSectorsSameBytes(a, b, size, n - 1);
      var m := (n - 1) * size;
      assert a[..m + size] == a[..m] + Sector(a, size, n - 1);
      assert b[..m + size] == b[..m] + Sector(b, size, n - 1);
    }
  }

  lemma SameSectorsSameFile(a: seq<Byte>, b: seq<Byte>, size: nat, n: nat)
    requires |a| == |b| && n * size <= |a| && a[n * size..] == b[n * size..]
    requires forall k: nat :: k < n ==>
               HasSector(a, size, k) && HasSector(b, size, k) && Sector(a, size, k) == Sector(b, size, k)
    ensures a == b
  {
    SameSectorsSameBytes(a, b, size, n);
    assert a == a[..n * size] + a[n * size..];
    assert b == b[..n * size] + b[n * size..];
  }

  lemma TailOutsideWrite(file: seq<Byte>, offset: nat, data: seq<Byte>, from: nat)
    requires offset + |data| <= from <= |file|
    ensures WriteAt(file, offset, data)[from..] == file[from..]
  {
  }
}
