/**
  The inventory ledger shared by the order and credit handlers. Product stock is a
  quantity keyed by product name. A handler turns its line items into `Line`s (a product
  name and the units that leave stock) and walks them in order:
  - debiting looks each product up, fails when it is missing or holds fewer units than
    the line needs, and otherwise subtracts the units;
  - crediting back adds the units to every product that still exists and skips the rest.
  Each lookup sees the writes of the earlier lines of the same walk.
*/
module StockLedger {
  import opened Wrappers

  /** Units on hand, by product name. */
  type Stock = map<string, int>

  /** One line item as the ledger sees it: the units it removes from stock. */
  datatype Line = Line(name: string, units: int)

  /** What a successful handler transaction writes: the new stock and the stored record. */
  datatype Commit<T> = Commit(stock: Stock, record: T)

  /** The failures the backend handlers report; each one aborts the whole transaction. */
  datatype Error =
    | ProductNotFound(name: string)
    | InsufficientStock(name: string, available: int, required: int)
    | RecordNotFound
    | ValidationFailed
    | DuplicateNumber(number: string)

  predicate NonNegative(stock: Stock) {
    forall n | n in stock :: stock[n] >= 0
  }

  predicate NonNegativeUnits(lines: seq<Line>) {
    forall k | 0 <= k < |lines| :: lines[k].units >= 0
  }

  predicate Mentions(lines: seq<Line>, name: string) {
    exists k | 0 <= k < |lines| :: lines[k].name == name
  }

  /** Total units that `lines` take from product `name`. */
  function Demand(lines: seq<Line>, name: string): int
    decreases |lines|
  {
    if lines == [] then 0
    else (if lines[0].name == name then lines[0].units else 0) + Demand(lines[1..], name)
  }

  /** Debit every line in order; the first missing product or short stock aborts the walk. */
  function DebitAll(stock: Stock, lines: seq<Line>): (r: Result<Stock, Error>)
    ensures r.Ok? ==> r.value.Keys == stock.Keys
    ensures r.Ok? ==> forall k | 0 <= k < |lines| :: lines[k].name in stock
    ensures r.Err? ==> (r.error.ProductNotFound? || r.error.InsufficientStock?) && Mentions(lines, r.error.name)
    ensures r.Err? && r.error.ProductNotFound? ==> r.error.name !in stock
    ensures r.Err? && r.error.InsufficientStock? ==> r.error.available < r.error.required
    decreases |lines|
  {
    if lines == [] then Ok(stock)
    else
      var l := lines[0];
      if l.name !in stock then Err(ProductNotFound(l.name))
      else if stock[l.name] < l.units then Err(InsufficientStock(l.name, stock[l.name], l.units))
      else
        var rest := DebitAll(stock[l.name := stock[l.name] - l.units], lines[1..]);
        assert rest.Err? ==> Mentions(lines, rest.error.name) by {
          if rest.Err? {
            var k :| 0 <= k < |lines[1..]| && lines[1..][k].name == rest.error.name;
            assert lines[k + 1].name == rest.error.name;
          }
        }
        assert rest.Ok? ==> forall k | 0 <= k < |lines| :: lines[k].name in stock by {
          if rest.Ok? {
            forall k | 0 <= k < |lines| ensures lines[k].name in stock {
              if k > 0 { assert lines[k] == lines[1..][k - 1]; }
            }
          }
        }
        rest
  }

  /** Return every line's units to its product; lines whose product no longer exists are skipped. */
  function CreditBack(stock: Stock, lines: seq<Line>): (r: Stock)
    ensures r.Keys == stock.Keys
    decreases |lines|
  {
    if lines == [] then stock
    else
      var l := lines[0];
      CreditBack(if l.name in stock then stock[l.name := stock[l.name] + l.units] else stock, lines[1..])
  }

  /**
    The two-phase reconciliation of an update: first credit back the old lines, then
    debit the new ones against the result.
  */
  function Reconcile(stock: Stock, oldLines: seq<Line>, newLines: seq<Line>): Result<Stock, Error> {
    DebitAll(CreditBack(stock, oldLines), newLines)
  }

  /** The debit walk, on a working copy of the stock that is handed back only when every line succeeds. */
  method Debit(stock: Stock, lines: seq<Line>) returns (r: Result<Stock, Error>)
    ensures r == DebitAll(stock, lines)
  {
    var work := stock;
    var i := 0;
    while i < |lines|
      invariant 0 <= i <= |lines|
      invariant DebitAll(stock, lines) == DebitAll(work, lines[i..])
    {
      assert lines[i..][0] == lines[i] && lines[i..][1..] == lines[i + 1..];
      var line := lines[i];
      if line.name !in work {
        return Err(ProductNotFound(line.name));
      }
      if work[line.name] < line.units {
        return Err(InsufficientStock(line.name, work[line.name], line.units));
      }
      work := work[line.name := work[line.name] - line.units];
      i := i + 1;
    }
    assert lines[i..] == [];
    return Ok(work);
  }

  /** The credit-back walk: adds each line's units to its product when that product exists. */
  method Restock(stock: Stock, lines: seq<Line>) returns (r: Stock)
    ensures r == CreditBack(stock, lines)
  {
    r := stock;
    var i := 0;
    while i < |lines|
      invariant 0 <= i <= |lines|
      invariant CreditBack(stock, lines) == CreditBack(r, lines[i..])
    {
      assert lines[i..][0] == lines[i] && lines[i..][1..] == lines[i + 1..];
      var line := lines[i];
      if line.name in r {
        r := r[line.name := r[line.name] + line.units];
      }
      i := i + 1;
    }
    assert lines[i..] == [];
  }

  lemma {:induction false} DemandNonNegative(lines: seq<Line>, name: string)
    requires NonNegativeUnits(lines)
    ensures Demand(lines, name) >= 0
    decreases |lines|
  {
    if lines != [] {
      DemandNonNegative(lines[1..], name);
    }
  }

  lemma {:induction false} DemandOfUnmentioned(lines: seq<Line>, name: string)
    requires !Mentions(lines, name)
    ensures Demand(lines, name) == 0
    decreases |lines|
  {
    if lines != [] {
      assert lines[0].name != name;
      assert !Mentions(lines[1..], name) by {
        forall k | 0 <= k < |lines[1..]| ensures lines[1..][k].name != name {
          assert lines[1..][k] == lines[k + 1];
        }
      }
      DemandOfUnmentioned(lines[1..], name);
    }
  }

  /** A successful debit lowers each product by exactly the units the lines demand of it. */
  lemma {:induction false} DebitAllEffect(stock: Stock, lines: seq<Line>)
    requires DebitAll(stock, lines).Ok?
    ensures forall n | n in stock :: DebitAll(stock, lines).value[n] == stock[n] - Demand(lines, n)
    decreases |lines|
  {
    if lines != [] {
      var l := lines[0];
      DebitAllEffect(stock[l.name := stock[l.name] - l.units], lines[1..]);
    }
  }

  /** Crediting back raises each existing product by exactly the units the lines demand of it. */
  lemma {:induction false} CreditBackEffect(stock: Stock, lines: seq<Line>)
    ensures forall n | n in stock :: CreditBack(stock, lines)[n] == stock[n] + Demand(lines, n)
    decreases |lines|
  {
    if lines != [] {
      var l := lines[0];
      var next := if l.name in stock then stock[l.name := stock[l.name] + l.units] else stock;
      CreditBackEffect(next, lines[1..]);
    }
  }

  /** A debit never drives a product below zero: it is refused before that happens. */
  lemma {:induction false} DebitAllKeepsNonNegative(stock: Stock, lines: seq<Line>)
    requires NonNegative(stock) && DebitAll(stock, lines).Ok?
    ensures NonNegative(DebitAll(stock, lines).value)
    decreases |lines|
  {
    if lines != [] {
      var l := lines[0];
      DebitAllKeepsNonNegative(stock[l.name := stock[l.name] - l.units], lines[1..]);
    }
  }

  /** Crediting back lines of non-negative units keeps every product non-negative. */
  lemma CreditBackKeepsNonNegative(stock: Stock, lines: seq<Line>)
    requires NonNegative(stock) && NonNegativeUnits(lines)
    ensures NonNegative(CreditBack(stock, lines))
  {
    CreditBackEffect(stock, lines);
    forall n | n in stock ensures CreditBack(stock, lines)[n] >= 0 {
      DemandNonNegative(lines, n);
    }
  }

  /** Every product the lines name exists and holds at least the total the lines demand of it. */
  predicate Covers(stock: Stock, lines: seq<Line>) {
    forall k | 0 <= k < |lines| :: lines[k].name in stock && Demand(lines, lines[k].name) <= stock[lines[k].name]
  }

  /**
    For lines of non-negative units, checking the lines one at a time is the same as
    checking each product's total demand against its stock once.
  */
  lemma {:induction false} DebitAllSucceedsIff(stock: Stock, lines: seq<Line>)
    requires NonNegativeUnits(lines)
    ensures DebitAll(stock, lines).Ok? <==> Covers(stock, lines)
    decreases |lines|
  {
    if lines != [] {
      var l, rest := lines[0], lines[1..];
      assert forall k | 0 <= k < |rest| :: rest[k] == lines[k + 1];
      assert NonNegativeUnits(rest);
      DemandNonNegative(rest, l.name);
      if l.name !in stock {
        assert !Covers(stock, lines) by { assert lines[0].name !in stock; }
      } else if stock[l.name] < l.units {
        assert !Covers(stock, lines) by { assert Demand(lines, lines[0].name) > stock[lines[0].name]; }
      } else {
        var next := stock[l.name := stock[l.name] - l.units];
        DebitAllSucceedsIff(next, rest);
        if Covers(next, rest) {
          forall k | 0 <= k < |lines|
            ensures lines[k].name in stock && Demand(lines, lines[k].name) <= stock[lines[k].name]
          {
            var m := lines[k].name;
            if m == l.name && !Mentions(rest, m) {
              DemandOfUnmentioned(rest, m);
            } else if m == l.name {
              var j :| 0 <= j < |rest| && rest[j].name == m;
              assert Demand(rest, rest[j].name) <= next[rest[j].name];
            } else {
              assert k > 0 && rest[k - 1].name == m;
              assert Demand(rest, rest[k - 1].name) <= next[rest[k - 1].name];
            }
          }
        }
        if Covers(stock, lines) {
          forall k | 0 <= k < |rest|
            ensures rest[k].name in next && Demand(rest, rest[k].name) <= next[rest[k].name]
          {
            assert lines[k + 1].name == rest[k].name;
            assert Demand(lines, lines[k + 1].name) <= stock[lines[k + 1].name];
          }
        }
      }
    }
  }

  /**
    The two-phase update ends where the per-product delta of the item change puts each
    product: old stock, plus what the old lines took, minus what the new lines take.
  */
  lemma ReconcileIsNetDelta(stock: Stock, oldLines: seq<Line>, newLines: seq<Line>)
    requires Reconcile(stock, oldLines, newLines).Ok?
    ensures Reconcile(stock, oldLines, newLines).value.Keys == stock.Keys
    ensures forall n | n in stock ::
      Reconcile(stock, oldLines, newLines).value[n] == stock[n] + Demand(oldLines, n) - Demand(newLines, n)
  {
    CreditBackEffect(stock, oldLines);
    DebitAllEffect(CreditBack(stock, oldLines), newLines);
  }

  /**
    Re-submitting the same lines leaves stock as it was, provided every product they name
    still exists, stock is non-negative and no line has negative units.
  */
  lemma ReconcileSameLines(stock: Stock, lines: seq<Line>)
    requires NonNegative(stock) && NonNegativeUnits(lines)
    requires forall k | 0 <= k < |lines| :: lines[k].name in stock
    ensures Reconcile(stock, lines, lines) == Ok(stock)
  {
    var back := CreditBack(stock, lines);
    CreditBackEffect(stock, lines);
    forall k | 0 <= k < |lines|
      ensures lines[k].name in back && Demand(lines, lines[k].name) <= back[lines[k].name]
    {
    }
    DebitAllSucceedsIff(back, lines);
    ReconcileIsNetDelta(stock, lines, lines);
    assert Reconcile(stock, lines, lines).value == stock;
  }

  /** Crediting back the lines that a debit took restores the stock exactly. */
  lemma DebitThenCreditBack(stock: Stock, lines: seq<Line>)
    requires DebitAll(stock, lines).Ok?
    ensures CreditBack(DebitAll(stock, lines).value, lines) == stock
  {
    var debited := DebitAll(stock, lines).value;
    DebitAllEffect(stock, lines);
    CreditBackEffect(debited, lines);
  }

  /** Debiting a single line that the stock covers subtracts its units from that product. */
  lemma DebitOneLine(stock: Stock, l: Line)
    requires l.name in stock && stock[l.name] >= l.units
    ensures DebitAll(stock, [l]) == Ok(stock[l.name := stock[l.name] - l.units])
  {
    assert [l][1..] == [];
  }

  /** Crediting back a single line adds its units to that product when it exists. */
  lemma CreditBackOneLine(stock: Stock, l: Line)
    ensures CreditBack(stock, [l]) == if l.name in stock then stock[l.name := stock[l.name] + l.units] else stock
  {
    assert [l][1..] == [];
  }
}
