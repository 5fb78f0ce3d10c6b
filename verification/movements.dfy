/** The movement ledger of one product: each fetched movement row is turned
    into what the modal shows. */
module Movements {
  import opened Wrappers
  import opened Strings
  import opened Numerals
  import opened Rows

  /** The five descriptions a movement can get. */
  datatype Kind = SalesOut | SalesReturn | PurchasesIn | ReturnIn | UnknownKind

  /** A parsed date (milliseconds since the epoch) or the `'Invalid Date'`
      sentinel. */
  datatype ShownDate = At(ms: int) | InvalidDate

  /** A formatted movement: the row's own columns, with the date, the
      description and the reference replaced by their display forms. The
      quantity is the raw one; only the description uses its magnitude. */
  datatype MovementView = MovementView(
    id: Value,
    productoId: Value,
    tipo: Option<string>,
    cantidad: Option<int>,
    fecha: ShownDate,
    descripcion: string,
    referencia: string)

  const Cancelacion: string := "cancelación"
  const Cancellation: string := "cancellation"

  /** `Math.abs(m.cantidad || 0)`: the magnitude of the quantity, 0 when it
      is absent. */
  function ShownQuantity(cantidad: Option<int>): (q: nat)
    ensures cantidad.None? ==> q == 0
    ensures cantidad.Some? ==> q == cantidad.value || q == -cantidad.value
  {
    match cantidad
    case None => 0
    case Some(n) => if n < 0 then -n else n
  }

  /** The reference mentions a cancellation, in Spanish or English, in any
      case; an absent reference does not. */
  predicate MentionsCancellation(referencia: Option<string>) {
    referencia.Some? &&
    (Contains(Lower(referencia.value), Cancelacion) || Contains(Lower(referencia.value), Cancellation))
  }

  /** Which description a movement gets, decided in the source's order. */
  function KindOf(tipo: Option<string>, referencia: Option<string>): (k: Kind)
    ensures tipo == Some("SALIDA") <==> k == SalesOut
    ensures k == SalesReturn <==> tipo == Some("ENTRADA") && MentionsCancellation(referencia)
    ensures k == PurchasesIn <==> tipo == Some("ENTRADA") && !MentionsCancellation(referencia)
    ensures k == ReturnIn <==> tipo == Some("DEVOLUCIÓN VENTA")
    ensures k == UnknownKind <==>
      tipo !in {Some("SALIDA"), Some("ENTRADA"), Some("DEVOLUCIÓN VENTA")}
  {
    if tipo == Some("SALIDA") then SalesOut
    else if tipo == Some("ENTRADA") then
      if MentionsCancellation(referencia) then SalesReturn else PurchasesIn
    else if tipo == Some("DEVOLUCIÓN VENTA") then ReturnIn
    else UnknownKind
  }

  /** The text in front of the quantity for each kind. */
  function Label(k: Kind): string {
    match k
    case SalesOut => "Sales Out: -"
    case SalesReturn => "Sales Return: "
    case PurchasesIn => "Purchases In: "
    case ReturnIn => "Return In: "
    case UnknownKind => "Unknown movement"
  }

  /** The description shown for a movement of kind `k` and displayed
      quantity `q`. */
  function Describe(k: Kind, q: nat): string {
    if k == UnknownKind then Label(k) else Label(k) + NatToString(q)
  }

  /** Reading a description back: its kind and the quantity it shows (0 for
      an unknown movement). */
  function ParseDescription(d: string): Option<(Kind, nat)> {
    if d == Label(UnknownKind) then Some((UnknownKind, 0))
    else if Label(SalesOut) <= d then ParseQuantity(SalesOut, d[|Label(SalesOut)|..])
    else if Label(SalesReturn) <= d then ParseQuantity(SalesReturn, d[|Label(SalesReturn)|..])
    else if Label(PurchasesIn) <= d then ParseQuantity(PurchasesIn, d[|Label(PurchasesIn)|..])
    else if Label(ReturnIn) <= d then ParseQuantity(ReturnIn, d[|Label(ReturnIn)|..])
    else None
  }

  function ParseQuantity(k: Kind, digits: string): Option<(Kind, nat)> {
    match ParseNat(digits)
    case Some(q) => Some((k, q))
    case None => None
  }

  /** The label of `k` is a prefix of `d` only when `d` starts with it. */
  lemma LabelPrefix(k: Kind, digits: string)
    ensures Label(k) <= Label(k) + digits
    ensures (Label(k) + digits)[|Label(k)|..] == digits
  {
  }

  /** A description names its kind and quantity unambiguously: reading it
      back gives the kind and the quantity it was made from. */
  lemma DescribeRoundTrip(k: Kind, q: nat)
    ensures ParseDescription(Describe(k, q)) ==
      Some((k, if k == UnknownKind then 0 else q))
  {
    if k != UnknownKind {
      var ds := NatToString(q);
      var d := Label(k) + ds;
      ParseNatOfNatToString(q);
      LabelPrefix(k, ds);
      assert d != Label(UnknownKind) by {
        if k == SalesOut || k == SalesReturn { assert d[0] == 'S'; }
        else if k == PurchasesIn { assert d[0] == 'P'; }
        else { assert d[0] == 'R'; }
      }
      if k != SalesOut {
        assert !(Label(SalesOut) <= d) by {
          if k == SalesReturn { assert d[6] == 'R'; } else { assert d[0] != 'S'; }
        }
      }
      if k != SalesOut && k != SalesReturn {
        assert !(Label(SalesReturn) <= d) by { assert d[0] != 'S'; }
      }
      if k == ReturnIn {
        assert !(Label(PurchasesIn) <= d) by { assert d[0] != 'P'; }
      }
    }
  }

  /** `m.fecha ? new Date(m.fecha) : null`, then the validity test: an absent
      or empty date, or one the date parser rejects, is the invalid-date
      sentinel. The date parser is a parameter. */
  function ShowDate(parseDate: string -> Option<int>, fecha: Option<string>): (d: ShownDate)
    ensures d.At? <==> fecha.Some? && fecha.value != "" && parseDate(fecha.value).Some?
    ensures d.At? ==> parseDate(fecha.value) == Some(d.ms)
  {
    match fecha
    case None => InvalidDate
    case Some(s) =>
      if s == "" then InvalidDate
      else match parseDate(s)
        case Some(ms) => At(ms)
        case None => InvalidDate
  }

  /** `m.referencia || '-'`: an absent or empty reference shows as "-". */
  function ShowReference(referencia: Option<string>): (r: string)
    ensures r != ""
    ensures referencia.Some? && referencia.value != "" ==> r == referencia.value
    ensures referencia.None? || referencia.value == "" ==> r == "-"
  {
    match referencia
    case Some(s) => if s == "" then "-" else s
    case None => "-"
  }

  /** One fetched row made ready for display. */
  function Classify(parseDate: string -> Option<int>, m: Movement): (v: MovementView)
    ensures v.id == m.id && v.productoId == m.productoId
    ensures v.tipo == m.tipo && v.cantidad == m.cantidad
    ensures v.descripcion == Describe(KindOf(m.tipo, m.referencia), ShownQuantity(m.cantidad))
    ensures v.fecha == ShowDate(parseDate, m.fecha)
    ensures v.referencia == ShowReference(m.referencia)
  {
    MovementView(
      m.id, m.productoId, m.tipo, m.cantidad,
      ShowDate(parseDate, m.fecha),
      Describe(KindOf(m.tipo, m.referencia), ShownQuantity(m.cantidad)),
      ShowReference(m.referencia))
  }

  /** The description of a classified row gives back the movement's kind and
      the magnitude of its quantity. */
  lemma ClassifiedDescriptionReadsBack(parseDate: string -> Option<int>, m: Movement)
    ensures var k := KindOf(m.tipo, m.referencia);
      ParseDescription(Classify(parseDate, m).descripcion) ==
        Some((k, if k == UnknownKind then 0 else ShownQuantity(m.cantidad)))
  {
    DescribeRoundTrip(KindOf(m.tipo, m.referencia), ShownQuantity(m.cantidad));
  }

  /** `(data || []).map(...)`: every row classified, same length and order. */
  function ClassifyAll(parseDate: string -> Option<int>, rows: seq<Movement>): (vs: seq<MovementView>)
    ensures |vs| == |rows|
    ensures forall i :: 0 <= i < |rows| ==> vs[i] == Classify(parseDate, rows[i])
    decreases |rows|
  {
    if |rows| == 0 then []
    else [Classify(parseDate, rows[0])] + ClassifyAll(parseDate, rows[1..])
  }

  /** A sale of five units, recorded as -5, shows as a sale out of 5. */
  lemma ExampleSalesOut(parseDate: string -> Option<int>)
    ensures Classify(parseDate, Movement(Null, Num(1), Some("SALIDA"), Some(-5), None, None)).descripcion
      == "Sales Out: -5"
  {
  }

  /** An entry whose reference mentions a cancellation is a sales return. */
  lemma ExampleSalesReturn(parseDate: string -> Option<int>)
    ensures Classify(parseDate, Movement(Null, Num(1), Some("ENTRADA"), Some(3), Some("cancellation #2"), None)).descripcion
      == "Sales Return: 3"
  {
    assert Cancellation <= Lower("cancellation #2");
  }

  /** The Spanish word counts too, whatever its case. */
  lemma ExampleSpanishCancellation(parseDate: string -> Option<int>)
    ensures Classify(parseDate, Movement(Null, Num(1), Some("ENTRADA"), Some(3), Some("CANCELACIÓN"), None)).descripcion
      == "Sales Return: 3"
  {
    assert Lower("CANCELACIÓN") == Cancelacion;
    assert Contains(Cancelacion, Cancelacion);
  }

  /** Any other entry is a purchase. */
  lemma ExamplePurchasesIn(parseDate: string -> Option<int>)
    ensures Classify(parseDate, Movement(Null, Num(1), Some("ENTRADA"), Some(7), Some("PO-100"), None)).descripcion
      == "Purchases In: 7"
  {
  }

  /** A sale return is a return in. */
  lemma ExampleReturnIn(parseDate: string -> Option<int>)
    ensures Classify(parseDate, Movement(Null, Num(1), Some("DEVOLUCIÓN VENTA"), Some(2), None, None)).descripcion
      == "Return In: 2"
  {
  }

  /** An unrecognised type is an unknown movement; with no date and no
      reference it shows the invalid-date sentinel and "-". */
  lemma ExampleUnknown(parseDate: string -> Option<int>)
    ensures var v := Classify(parseDate, Movement(Null, Num(1), Some("FOO"), Some(1), None, None));
      v.descripcion == "Unknown movement" && v.fecha == InvalidDate && v.referencia == "-"
  {
  }
}
