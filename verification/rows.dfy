/** The rows the stock screen reads from the data store: products and stock
    movements. Nullable columns are explicit. */
module Rows {
  import opened Wrappers
  import opened Numerals

  /** A column value as the data store hands it over: absent (`null` or
      `undefined`), a number, or text. */
  datatype Value = Null | Num(n: int) | Text(s: string)

  /** An optional text column read as a value. */
  function TextValue(t: Option<string>): Value {
    match t
    case Some(s) => Text(s)
    case None => Null
  }

  /** `String(v)` for a non-absent value. */
  function ToText(v: Value): string
    requires !v.Null?
  {
    match v
    case Num(n) => IntToString(n)
    case Text(s) => s
  }

  /** `parseFloat(v) || 0`: a number is itself, text is parsed, and what
      does not parse (`NaN`) becomes 0. */
  function ToNumber(v: Value): (x: int)
    requires !v.Null?
    ensures v.Num? ==> x == v.n
    ensures v.Text? && ParseNumber(v.s).Some? ==> x == ParseNumber(v.s).value
    ensures v.Text? && ParseNumber(v.s).None? ==> x == 0
  {
    match v
    case Num(n) => n
    case Text(s) => ParseNumber(s).GetOr(0)
  }

  /** A number and its printed form coerce to the same number. */
  lemma ToNumberOfPrintedNumber(n: int)
    ensures ToNumber(Text(IntToString(n))) == ToNumber(Num(n)) == n
  {
    ParseNumberOfIntToString(n);
  }

  /** A row of the products table, with the columns the screen reads. */
  datatype Product = Product(
    id: Value,
    nombre: Option<string>,
    codigo: Option<string>,
    categoria: Option<string>,
    stock: Value,
    promocion: Value,
    precioNormal: Value,
    costoFinalUsd: Value,
    costoFinalMxn: Value,
    imagenUrl: Option<string>)

  /** `p[column]`: the value of the named column, absent for any name that
      is not a column of the product. */
  function Field(p: Product, column: string): Value {
    match column
    case "id" => p.id
    case "nombre" => TextValue(p.nombre)
    case "codigo" => TextValue(p.codigo)
    case "categoria" => TextValue(p.categoria)
    case "stock" => p.stock
    case "promocion" => p.promocion
    case "precio_normal" => p.precioNormal
    case "costo_final_usd" => p.costoFinalUsd
    case "costo_final_mxn" => p.costoFinalMxn
    case "imagen_url" => TextValue(p.imagenUrl)
    case _ => Null
  }

  /** A row of the inventory movements table, with the columns the ledger
      reads. */
  datatype Movement = Movement(
    id: Value,
    productoId: Value,
    tipo: Option<string>,
    cantidad: Option<int>,
    referencia: Option<string>,
    fecha: Option<string>)
}
