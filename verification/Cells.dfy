/** Output elements that count their stores, for kernels that must write every output exactly once. */
module Cells {

  datatype Cell<!F> = Cell(value: F, stores: nat)
  {
    function Store(v: F): Cell<F> { Cell(v, stores + 1) }
  }
}
