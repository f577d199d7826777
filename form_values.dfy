/**
  Values as the React forms hold them. A number input delivers either the empty string
  or a number, and the handlers store either '' or the parsed number. A stored field is
  therefore `Empty` or `Num(n)`, and arithmetic on it (`parseInt(x) || 0`, or the
  implicit coercion of `*` and `>`) reads `Empty` as 0. Prices are whole UZS.
*/
module FormValues {
  import opened Wrappers

  /** A stored numeric form field: the empty string, or a whole number. */
  datatype Field = Empty | Num(n: int)

  /** What a number input delivers to a change handler. */
  datatype Entry = Blank | Whole(n: int)

  /** The number a field stands for in arithmetic and comparisons: the empty string counts as 0. */
  function Value(f: Field): int {
    match f
    case Empty => 0
    case Num(n) => n
  }

  /**
    The clamp both mock-data forms apply to a numeric entry: an empty entry stays empty,
    a negative number becomes 0, anything else is kept.
  */
  function Sanitize(e: Entry): (f: Field)
    ensures e.Blank? <==> f.Empty?
    ensures Value(f) >= 0
    ensures e.Whole? && e.n >= 0 ==> f == Num(e.n)
    ensures e.Whole? && e.n < 0 ==> f == Num(0)
  {
    match e
    case Blank => Empty
    case Whole(n) => if n < 0 then Num(0) else Num(n)
  }

  /** The characters the JavaScript `trim` removes: white space and line terminators. */
  predicate IsTrimmed(c: char) {
    || c == '\t' || c == '\n' || c == '\U{000B}' || c == '\U{000C}' || c == '\r' || c == ' '
    || c == '\U{00A0}' || c == '\U{1680}' || ('\U{2000}' <= c <= '\U{200A}')
    || c == '\U{2028}' || c == '\U{2029}' || c == '\U{202F}' || c == '\U{205F}'
    || c == '\U{3000}' || c == '\U{FEFF}'
  }

  /** A string whose trimmed form is empty, which a form treats as missing. */
  predicate IsBlank(s: string) {
    forall k | 0 <= k < |s| :: IsTrimmed(s[k])
  }

  /** A product as the frontend lists it: database id, name, stock and unit price. */
  datatype Product = Product(id: string, name: string, quantity: int, price: int)

  /** How a form looks a product up: the order form by database id, the credit form by name. */
  datatype ProductKey = ById(id: string) | ByName(name: string)

  predicate Matches(p: Product, key: ProductKey) {
    match key
    case ById(id) => p.id == id
    case ByName(name) => p.name == name
  }

  /** The first product matching the key, as `find` returns it. */
  function Find(products: seq<Product>, key: ProductKey): (r: Option<Product>)
    ensures r.None? <==> forall k | 0 <= k < |products| :: !Matches(products[k], key)
    ensures r.Some? ==> exists k | 0 <= k < |products| ::
      products[k] == r.value && Matches(r.value, key) && forall j | 0 <= j < k :: !Matches(products[j], key)
    decreases |products|
  {
    if products == [] then None
    else if Matches(products[0], key) then Some(products[0])
    else
      var r := Find(products[1..], key);
      assert forall k | 0 <= k < |products[1..]| :: products[1..][k] == products[k + 1];
      r
  }

  /** The messages a form shows instead of submitting or instead of storing an edit. */
  datatype FormError =
    | CustomerRequired
    | ItemRequired
    | UnknownProduct
    | ProductMissing(name: string)
    | QuantityNotPositive(name: string)
    | QuantityNegative
    | ReturnedNegative(name: string)
    | ReturnedExceedsOrdered(name: string)
    | ReturnedAboveQuantity(quantity: int)
    | NotEnoughInventory(name: string, available: int)
    | OnlyAvailable(available: int)
    | AmountNotPositive
    | AmountAboveRemaining(remaining: int)
}
