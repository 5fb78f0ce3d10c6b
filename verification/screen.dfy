/** The stock screen's state and the transitions its handlers make on it.
    Query results arrive as values; each handler is one step from state to
    state. */
module StockScreen {
  import opened Wrappers
  import opened Rows
  import opened ProductFilter
  import opened ProductSort
  import opened Movements

  /** A failed query; its message only reaches the log and the toast. */
  datatype FetchError = FetchError(message: string)

  /** The screen's local state. */
  datatype Screen = Screen(
    productos: seq<Product>,
    busqueda: string,
    movimientos: seq<MovementView>,
    modalActivo: bool,
    productoActual: Option<Product>,
    loading: bool,
    sortColumn: string,
    sortDirection: Direction)

  /** The state on mount: nothing loaded yet, loading, sorted by name
      ascending. */
  function Initial(): (s: Screen)
    ensures s.productos == [] && s.movimientos == [] && s.busqueda == ""
    ensures s.loading && !s.modalActivo && s.productoActual.None?
    ensures s.sortColumn == "nombre" && s.sortDirection == Asc
  {
    Screen([], "", [], false, None, true, "nombre", Asc)
  }

  /** `cargarProductos`: loading is set, the query answers, and the held
      product list is replaced by the rows (none when the query returned
      null) or emptied on an error. Loading ends on both paths. */
  function LoadProducts(s: Screen, answer: Result<Option<seq<Product>>, FetchError>): (t: Screen)
    ensures !t.loading
    ensures answer.Err? ==> t.productos == []
    ensures answer.Ok? && answer.value.Some? ==> t.productos == answer.value.value
    ensures answer.Ok? && answer.value.None? ==> t.productos == []
    ensures t == s.(productos := t.productos, loading := false)
  {
    var loading := s.(loading := true);
    match answer
    case Err(_) => loading.(productos := [], loading := false)
    case Ok(data) => loading.(productos := data.GetOr([]), loading := false)
  }

  /** `handleSort`: clicking the sort column flips the direction; clicking
      another column sorts by it ascending. */
  function HandleSort(s: Screen, column: string): (t: Screen)
    ensures t.sortColumn == column
    ensures s.sortColumn == column ==> t.sortDirection != s.sortDirection
    ensures s.sortColumn != column ==> t.sortDirection == Asc
    ensures t == s.(sortColumn := column, sortDirection := t.sortDirection)
  {
    if s.sortColumn == column then
      s.(sortDirection := if s.sortDirection == Asc then Desc else Asc)
    else
      s.(sortColumn := column, sortDirection := Asc)
  }

  /** Two clicks on the sort column give back the state before them. */
  lemma HandleSortTwiceRestores(s: Screen, column: string)
    requires s.sortColumn == column
    ensures HandleSort(HandleSort(s, column), column) == s
  {
  }

  /** Two clicks on another column sort by it descending. */
  lemma HandleSortNewColumnTwice(s: Screen, column: string)
    requires s.sortColumn != column
    ensures HandleSort(HandleSort(s, column), column) ==
      s.(sortColumn := column, sortDirection := Desc)
  {
  }

  /** Typing in the search box. */
  function Search(s: Screen, text: string): (t: Screen)
    ensures t.busqueda == text
    ensures t == s.(busqueda := text)
  {
    s.(busqueda := text)
  }

  /** The list the screen shows: the loaded products filtered by the search
      and ordered by the sort column and direction. */
  function Visible(s: Screen): (r: seq<Product>)
    ensures multiset(r) == multiset(Filter(s.productos, s.busqueda))
    ensures forall p :: p in r ==> p in s.productos && (s.busqueda == "" || Matches(p, s.busqueda))
    ensures |r| <= |s.productos|
    ensures s.sortColumn != "" ==> Sorted(s.sortColumn, s.sortDirection, r)
  {
    var kept := Filter(s.productos, s.busqueda);
    var r := Arrange(s.sortColumn, s.sortDirection, kept);
    SubsequenceLength(kept, s.productos);
    assert |r| == |multiset(r)| == |multiset(kept)| == |kept|;
    forall p | p in r ensures p in s.productos && (s.busqueda == "" || Matches(p, s.busqueda)) {
      assert p in multiset(r);
      assert p in kept;
      SubsequenceMembers(kept, s.productos, p);
    }
    r
  }

  /** After a failed product load nothing is shown. */
  lemma FailedLoadShowsNothing(s: Screen, e: FetchError)
    ensures Visible(LoadProducts(s, Err(e))) == []
  {
  }

  /** The first half of `verMovimientos`, before the query answers: the
      product becomes the current one and the previous ledger is cleared. */
  function SelectProduct(s: Screen, p: Product): (t: Screen)
    ensures t.productoActual == Some(p) && t.movimientos == []
    ensures t == s.(productoActual := Some(p), movimientos := [])
  {
    s.(productoActual := Some(p), movimientos := [])
  }

  /** The second half of `verMovimientos`, when the query answers: on an
      error the ledger stays empty and the modal is left as it was; otherwise
      the ledger holds the classified rows (none when the query returned
      null) and the modal opens. The answer is not checked against the
      current product. */
  function ReceiveMovements(s: Screen, parseDate: string -> Option<int>,
                            answer: Result<Option<seq<Movement>>, FetchError>): (t: Screen)
    ensures answer.Err? ==> t == s.(movimientos := [])
    ensures answer.Ok? ==> t.modalActivo
    ensures answer.Ok? ==> t == s.(movimientos := t.movimientos, modalActivo := true)
    ensures answer.Ok? ==>
      var rows := answer.value.GetOr([]);
      |t.movimientos| == |rows| &&
      forall i :: 0 <= i < |rows| ==> t.movimientos[i] == Classify(parseDate, rows[i])
  {
    match answer
    case Err(_) => s.(movimientos := [])
    case Ok(data) => s.(movimientos := ClassifyAll(parseDate, data.GetOr([])), modalActivo := true)
  }

  /** `verMovimientos` run without interruption: select, then receive. */
  function ShowMovements(s: Screen, p: Product, parseDate: string -> Option<int>,
                         answer: Result<Option<seq<Movement>>, FetchError>): (t: Screen)
    ensures t.productoActual == Some(p)
    ensures answer.Err? ==> t.movimientos == [] && t.modalActivo == s.modalActivo
    ensures answer.Ok? ==> t.modalActivo && |t.movimientos| == |answer.value.GetOr([])|
    ensures t.productos == s.productos && t.busqueda == s.busqueda && t.loading == s.loading
    ensures t.sortColumn == s.sortColumn && t.sortDirection == s.sortDirection
  {
    ReceiveMovements(SelectProduct(s, p), parseDate, answer)
  }

  /** Closing the modal, by its button or by a click on the backdrop. */
  function CloseModal(s: Screen): (t: Screen)
    ensures !t.modalActivo
    ensures t == s.(modalActivo := false)
  {
    s.(modalActivo := false)
  }
}
