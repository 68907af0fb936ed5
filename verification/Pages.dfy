/** The geometry of a paged file: fixed-size chunks, the last one padded with zeros. */
module Pages {

  newtype Byte = b: int | 0 <= b < 0x100

  /** The page number that stands for "no page" in a slot or a lane (UINT64_MAX). */
  const NO_PAGE: nat := 0xFFFF_FFFF_FFFF_FFFF

  /** The largest file size the file system reports (a signed 64-bit quantity). */
  const MAX_LENGTH: nat := 0x7FFF_FFFF_FFFF_FFFF

  function Zeros(n: nat): (z: seq<Byte>)
    ensures |z| == n
    ensures forall k :: 0 <= k < n ==> z[k] == 0
  {
    seq(n, _ => 0)
  }

  function Min(a: nat, b: nat): nat {
    if a < b then a else b
  }

  lemma Scaled(a: nat, b: nat)
    requires 0 < b
    ensures a <= a * b
  {
    assert a * b == a + a * (b - 1);
  }

  lemma DivBounds(a: nat, b: nat)
    requires 0 < b
    ensures a / b * b <= a
    ensures b <= a <==> 0 < a / b
  {
    assert a == a / b * b + a % b;
  }

  lemma Scales(a: nat, b: nat, c: nat)
    requires a <= b
    ensures a * c <= b * c
  {
  }

  datatype Geometry = Geometry(file: seq<Byte>, chunk: nat) {

    predicate Valid() {
      && 0 < chunk
      && 0 < |file| <= MAX_LENGTH
    }

    function Offset(page: nat): nat {
      page * chunk
    }

    /** The page lies, at least in part, inside the file. */
    predicate Has(page: nat) {
      Offset(page) < |file|
    }

    /** The chunks of address space reserved for the file. */
    function PageCount(): nat
      requires Valid()
    {
      (|file| + chunk - 1) / chunk
    }

    /** How many chunks a byte budget pays for: never more than the file needs, nor than it can afford. */
    function Affordable(budget: nat): (n: nat)
      requires Valid()
      ensures n * chunk <= budget && n <= PageCount()
      ensures n > 0 <==> budget >= chunk
      ensures n == PageCount() || budget < (n + 1) * chunk  // no other number of chunks up to the file's is larger and paid for
    {
      DivBounds(budget, chunk);
      DivBounds(|file| + chunk - 1, chunk);
      Scales(Min(budget / chunk, PageCount()), budget / chunk, chunk);
      Min(budget / chunk, PageCount())
    }

    /** How many bytes of the file the page holds. */
    function Bytes(page: nat): (n: nat)
      requires Valid() && Has(page)
      ensures 0 < n <= chunk && Offset(page) + n <= |file|
      ensures n < chunk ==> Offset(page) + n == |file|
    {
      Min(chunk, |file| - Offset(page))
    }

    /** The part of the file that the page holds. */
    function Content(page: nat): (c: seq<Byte>)
      requires Valid() && Has(page)
      ensures |c| == Bytes(page)
    {
      file[Offset(page)..Offset(page) + Bytes(page)]
    }

    /** What a whole chunk of device memory must hold for the page: its content, then zeros. */
    function Image(page: nat): (image: seq<Byte>)
      requires Valid() && Has(page)
      ensures |image| == chunk
    {
      Content(page) + Zeros(chunk - Bytes(page))
    }

    /** No page of a file is ever confused with the "no page" marker. */
    lemma RealPageIsNotMarker(page: nat)
      requires Valid() && Has(page)
      ensures page < NO_PAGE
    {
      Scaled(page, chunk);
    }

    /** Byte `a` of the file is byte `a % chunk` of the image of page `a / chunk`. */
    lemma ByteInImage(a: nat)
      requires Valid() && a < |file|
      ensures Has(a / chunk) && a % chunk < Bytes(a / chunk)
      ensures Image(a / chunk)[a % chunk] == file[a]
    {
      assert a == Offset(a / chunk) + a % chunk;
    }

    /** Past the end of the file, the last page reads as zeros. */
    lemma PaddingIsZero(page: nat, k: nat)
      requires Valid() && Has(page) && Bytes(page) <= k < chunk
      ensures Image(page)[k] == 0
    {
    }
  }
}
