/** What the hash tables share: elements and their buckets, and the cells of the cellar, where elements go that find no
    place in a bucket. */
module HashCells {
  import opened RingIndex

  datatype Elem = Elem(id: nat, key: nat, hash: nat)

  datatype Cell = Cell(hash: nat, elem: Option<Elem>)

  function RingAdd(a: nat, b: nat, modulo: nat): (r: nat)
    requires a < modulo && b < modulo
    ensures r < modulo
  {
    if a + b >= modulo then a + b - modulo else a + b
  }

  function RingSub(a: nat, b: nat, modulo: nat): (r: nat)
    requires a < modulo && b < modulo
    ensures r < modulo
  {
    if a < b then a - b + modulo else a - b
  }

  lemma RingInverse(b: nat, i: nat, k: nat, modulo: nat)
    requires b < modulo && i < modulo && k < modulo
    ensures RingAdd(b, RingSub(i, b, modulo), modulo) == i
    ensures RingSub(RingAdd(b, k, modulo), b, modulo) == k
  {
  }

  /** How often an element is stored. */
  function Is(o: Option<Elem>, e: Elem): nat { if o == Some(e) then 1 else 0 }

  function CellTimes(cells: seq<Cell>, e: Elem): nat {
    if cells == [] then 0 else CellTimes(cells[..|cells| - 1], e) + Is(cells[|cells| - 1].elem, e)
  }

  lemma {:induction false} CellUpdate(cells: seq<Cell>, i: nat, c: Cell, e: Elem)
    requires i < |cells|
    ensures CellTimes(cells[i := c], e) + Is(cells[i].elem, e) == CellTimes(cells, e) + Is(c.elem, e)
  {
    var n := |cells| - 1;
    if i < n {
      assert cells[i := c][..n] == cells[..n][i := c];
      CellUpdate(cells[..n], i, c, e);
    } else {
      assert cells[i := c][..n] == cells[..n];
    }
  }

  lemma {:induction false} CellHas(cells: seq<Cell>, e: Elem)
    ensures 0 < CellTimes(cells, e) <==> exists i :: 0 <= i < |cells| && cells[i].elem == Some(e)
  {
    if cells != [] {
      CellHas(cells[..|cells| - 1], e);
    }
  }
}
