/** Spreadsheet cells as the import page sees them, and the numeric coercion
    it applies to data cells (`isNaN` / `Number`), kept abstract. */
module Cells {

  /** A decoded cell: text, a number, or JavaScript `undefined`. `Hole` stands
      for both an empty slot of a sparse row and a read past the end of a row. */
  datatype Cell = Text(text: string) | Num(value: int) | Hole

  /** The page's numeric test `!isNaN(field)` and conversion `Number(field)`.
      Their exact JavaScript rules (whitespace, hex, floats, `""` becoming 0)
      are not modelled: the pair is a parameter of every operation that uses it. */
  datatype Coercion = Coercion(isNumeric: Cell -> bool, toNumber: Cell -> int)

  /** The two JavaScript facts the model does rely on: `isNaN(undefined)` holds,
      and a number is numeric and converts to itself. */
  ghost predicate Lawful(k: Coercion)
  {
    && !k.isNumeric(Hole)
    && forall n: int :: k.isNumeric(Num(n)) && k.toNumber(Num(n)) == n
  }

  /** One data cell after the import loop: `if (!isNaN(field)) field = Number(field)`. */
  function Coerce(k: Coercion, c: Cell): (r: Cell)
    ensures r == c || r.Num?
    ensures r.Num? && !c.Num? ==> k.isNumeric(c)
  {
    if k.isNumeric(c) then Num(k.toNumber(c)) else c
  }

  /** A cell the coercion leaves as it is. */
  predicate Stable(k: Coercion, c: Cell)
  {
    Coerce(k, c) == c
  }

  /** Under the JavaScript facts, coercing twice is coercing once, numbers and
      `undefined` pass through, and text that is not numeric is kept verbatim. */
  lemma CoerceLawful(k: Coercion, c: Cell)
    requires Lawful(k)
    ensures Stable(k, Coerce(k, c))
    ensures c.Num? || c.Hole? ==> Coerce(k, c) == c
    ensures c.Text? ==> (Coerce(k, c) == c <==> !k.isNumeric(c))
  {
    if k.isNumeric(c) {
      assert k.isNumeric(Num(k.toNumber(c)));
    }
  }
}
