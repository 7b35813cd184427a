/**
 * The bookkeeping of `updatePrices`: each price-list row is matched against
 * the products and option-matrix entries of the shop database, and the
 * outcome is sorted into the `updated`, `failed`, `not_found`, `warning` and
 * `disabled` buckets of the report. Afterwards every product whose matrix
 * entries were updated is checked for database codes missing from the price
 * list, which are reported or disabled.
 *
 * The database is an input: its SELECT answers are lookup maps and sets,
 * and the `affected_rows` of the per-row UPDATEs, which depend on what the
 * database held before, are given per row.
 */
module PriceUpdate {
  import opened Wrappers
  import opened PhpText
  import Csv

  /** A row of the price list keyed by its header; a cell missing from a short line is None (null). */
  type Entry = map<string, Option<string>>

  /** `(product_code, manufacturer name)`, the key of both SELECTs by code. */
  type Key = (string, string)

  /** The `$options` array of `updatePrices`, with the header labels it looks the columns up by. */
  datatype Options = Options(
    dryRun: bool,
    disableOnly: bool,
    ignoreMissing: bool,
    upcUpdate: bool,
    allowUpsell: bool,
    updateMatrix: bool,
    updateDate: bool,
    updateDateAll: bool,
    disableProducts: bool,
    updateMainPrice: bool,
    manufacturer: string,
    productCode: Csv.HeaderLabel,
    listPrice: Csv.HeaderLabel,
    costPrice: Csv.HeaderLabel,
    salePrice: Csv.HeaderLabel,
    manufacturerColumn: Csv.HeaderLabel,
    upc: Csv.HeaderLabel)

  /** `$options['header_labels']`, in the order the form declares them. */
  function HeaderLabels(o: Options): seq<Csv.HeaderLabel> {
    [o.productCode, o.listPrice, o.costPrice, o.salePrice, o.manufacturerColumn, o.upc]
  }

  /** Price-list rows are only read, never written, on a dry run or a disable-only run. */
  predicate SelectOnly(o: Options) {
    o.dryRun || o.disableOnly
  }

  /** What the database answers. */
  datatype Db = Db(
    products: map<Key, int>,             // `select_product`: the product id
    matrix: map<Key, int>,               // `select_matrix`: the product id of the matrix entry
    codes: map<int, seq<string>>,        // `select_product_codes`: product code, then matrix codes
    matrixEnabled: set<(int, string)>,   // matrix entries `disable_matrix` would change
    productDisable: set<int>,            // products `disable_product` would change
    lowest: map<int, (int, int)>,        // `lowest_price`: price and sale price, in cents (null as 0)
    mainPriceChanges: set<int>)          // products `update_main_price` would change

  /** `affected_rows > 0` of `update_product` and `update_matrix` for one row. */
  datatype RowWrites = RowWrites(productAffected: bool, matrixAffected: bool)

  /** Entries of `$result['updated']`; a date entry stands for the key `"Date-$id"`. */
  datatype Update =
    | ProductPrices(manufacturer: string, code: string, list: int, cost: Option<int>, sale: Option<int>)
    | MatrixPrices(manufacturer: string, code: string, list: int, sale: Option<int>)
    | DateModified(id: int, manufacturer: string, code: string)
    | MainPrices(id: int, price: int, mainSale: int)

  /** `$result['failed']`: a matrix entry that was updated but then not found. */
  datatype Failure = MatrixVanished(manufacturer: string, code: string)

  /** `$result['not_found'][$product_code]`. */
  datatype Miss = ProductMissing(manufacturer: string, code: string) | NeitherFound(manufacturer: string, code: string)

  /** Entries of `$result['warning'][$product_id]`. */
  datatype Warning =
    | Unlisted(code: string)
    | MatrixNotDisabled(code: string)
    | ProductNotDisabled
    | MainPriceNotUpdated(price: int, sale: int)

  /** Entries of `$result['disabled'][$product_id]`. */
  datatype Disabled = DisabledCode(code: string) | DisabledProduct

  datatype Report = Report(
    updated: seq<Update>,
    failed: seq<Failure>,
    notFound: map<string, Miss>,
    warning: map<int, seq<Warning>>,
    disabled: map<int, seq<Disabled>>)

  /** One price-list row as `updatePrices` reads it. */
  datatype PriceRow = PriceRow(
    manufacturer: string, code: string, upc: Option<string>,
    list: int, cost: Option<int>, sale: Option<int>)

  function Lookup<K, V>(m: map<K, V>, k: K): Option<V> {
    if k in m then Some(m[k]) else None
  }

  /** PHP truthiness of a fetched id: null, an empty result and 0 are false. */
  predicate Truthy(v: Option<int>) {
    v.Some? && v.value != 0
  }

  /** `$entry[$label]`: null when the column or the cell is missing. */
  function Field(e: Entry, column: string): Option<string> {
    if column in e then e[column] else None
  }

  /** `empty($entry[$label])`. */
  predicate Blank(v: Option<string>) {
    v.None? || PhpEmpty(v.value)
  }

  /** A null cell used as a string. */
  function Text(v: Option<string>): string {
    if v.Some? then v.value else ""
  }

  /**
   * The upsell rule: a sale price above the list price becomes the new list
   * price and the sale price is dropped, when upselling is allowed.
   */
  function Upsell(list: int, sale: int, allow: bool): (r: (int, Option<int>))
    ensures r.0 >= list
    ensures r.1.None? <==> allow && sale > list
    ensures r.1.None? ==> r.0 == sale
    ensures r.1.Some? ==> r == (list, Some(sale))
  {
    if sale > list && allow then (sale, None) else (list, Some(sale))
  }

  /**
   * Reads one row. `amount` is `round_up(getAmount(..), 2)` in cents. The
   * manufacturer column falls back to the form's manufacturer when the cell
   * is missing, "" or "0".
   */
  function ParseRow(o: Options, amount: string -> int, e: Entry): (r: PriceRow)
    ensures Blank(Field(e, o.manufacturerColumn.name)) ==> r.manufacturer == o.manufacturer
    ensures !Blank(Field(e, o.manufacturerColumn.name)) ==> Some(r.manufacturer) == e[o.manufacturerColumn.name]
    ensures r.code == Text(Field(e, o.productCode.name))
    ensures r.upc.Some? <==> o.upcUpdate && !Blank(Field(e, o.upc.name))
    ensures r.upc.Some? ==> r.upc == Field(e, o.upc.name)
    ensures r.cost.Some? <==> Field(e, o.costPrice.name).Some?
    ensures r.cost.Some? ==> r.cost.value == amount(Field(e, o.costPrice.name).value)
    ensures (r.list, r.sale) == Upsell(amount(Text(Field(e, o.listPrice.name))),
                                       amount(Text(Field(e, o.salePrice.name))), o.allowUpsell)
    ensures r.list >= amount(Text(Field(e, o.listPrice.name)))
  {
    var mfr := Field(e, o.manufacturerColumn.name);
    var upc := Field(e, o.upc.name);
    var cost := Field(e, o.costPrice.name);
    var prices := Upsell(amount(Text(Field(e, o.listPrice.name))),
                         amount(Text(Field(e, o.salePrice.name))), o.allowUpsell);
    PriceRow(
      if Blank(mfr) then o.manufacturer else mfr.value,
      Text(Field(e, o.productCode.name)),
      if !o.upcUpdate || Blank(upc) then None else upc,
      prices.0,
      if cost.Some? then Some(amount(cost.value)) else None,
      prices.1)
  }

  /** `$result` while rows are read, with `$updated` (order and groups) and the variable `$product_id`. */
  datatype RowState = RowState(
    updated: seq<Update>,
    failed: seq<Failure>,
    notFound: map<string, Miss>,
    dated: set<int>,                   // ids with a `"Date-$id"` entry
    order: seq<int>,                   // keys of `$updated`, in insertion order
    groups: map<int, seq<string>>,     // `$updated[$product_id]`: the codes matched for it
    lastMatrix: Option<int>)           // `$product_id`: the last `select_matrix` answer

  const InitialState := RowState([], [], map[], {}, [], map[], None)

  /** Whether the product part of a row counts as updated. */
  predicate ProductHit(o: Options, db: Db, w: RowWrites, r: PriceRow) {
    if SelectOnly(o) then (r.code, r.manufacturer) in db.products else w.productAffected
  }

  /** Whether `select_matrix` runs for a row. */
  predicate MatrixQueried(o: Options, w: RowWrites) {
    o.updateMatrix && (SelectOnly(o) || w.matrixAffected)
  }

  /** Whether a row matched a matrix entry of a product. */
  predicate MatrixHit(o: Options, db: Db, w: RowWrites, r: PriceRow) {
    MatrixQueried(o, w) && Truthy(Lookup(db.matrix, (r.code, r.manufacturer)))
  }

  /** Whether a row's product part put its code into `not_found`. */
  predicate Missed(o: Options, db: Db, w: RowWrites, r: PriceRow) {
    !ProductHit(o, db, w, r) && !o.ignoreMissing
  }

  /** `$m[$k][] = ...` for each of `xs`. */
  function Append<T>(m: map<int, seq<T>>, k: int, xs: seq<T>): (m': map<int, seq<T>>)
    ensures xs == [] ==> m' == m
    ensures xs != [] ==> m' == m[k := (if k in m then m[k] else []) + xs]
  {
    if xs == [] then m else m[k := (if k in m then m[k] else []) + xs]
  }

  /** A code already in `not_found` is marked as found neither as product nor as matrix entry. */
  function MarkNeither(nf: map<string, Miss>, r: PriceRow): (nf': map<string, Miss>)
    ensures nf'.Keys == nf.Keys
  {
    if r.code in nf then nf[r.code := NeitherFound(r.manufacturer, r.code)] else nf
  }

  /** The price entry a row's product part adds to `updated`, if any. */
  function ProductEntries(o: Options, db: Db, w: RowWrites, r: PriceRow): seq<Update> {
    if ProductHit(o, db, w, r) then [ProductPrices(r.manufacturer, r.code, r.list, r.cost, r.sale)] else []
  }

  /** The price entry a row's matrix part adds to `updated`, if any. */
  function MatrixEntries(o: Options, db: Db, w: RowWrites, r: PriceRow): seq<Update> {
    if MatrixHit(o, db, w, r) then [MatrixPrices(r.manufacturer, r.code, r.list, r.sale)] else []
  }

  /** The product part of a row. */
  function ProductStep(o: Options, db: Db, w: RowWrites, s: RowState, r: PriceRow): RowState {
    if ProductHit(o, db, w, r) then
      s.(updated := s.updated + [ProductPrices(r.manufacturer, r.code, r.list, r.cost, r.sale)])
    else if !o.ignoreMissing then
      s.(notFound := s.notFound[r.code := ProductMissing(r.manufacturer, r.code)])
    else s
  }

  /** The matrix part of a row. */
  function MatrixStep(o: Options, db: Db, w: RowWrites, s: RowState, r: PriceRow): RowState {
    if !o.updateMatrix then s
    else if MatrixQueried(o, w) then
      var pid := Lookup(db.matrix, (r.code, r.manufacturer));
      if Truthy(pid) then
        s.(updated := s.updated + [MatrixPrices(r.manufacturer, r.code, r.list, r.sale)],
           order := if pid.value in s.groups then s.order else s.order + [pid.value],
           groups := Append(s.groups, pid.value, [r.code]),
           notFound := s.notFound - {r.code},
           lastMatrix := pid)
      else if SelectOnly(o) then
        s.(notFound := MarkNeither(s.notFound, r), lastMatrix := pid)
      else
        s.(failed := s.failed + [MatrixVanished(r.manufacturer, r.code)], lastMatrix := pid)
    else s.(notFound := MarkNeither(s.notFound, r))
  }

  /** The id whose date-modified field a row touches: the product's own id, else the variable `$product_id`. */
  function DateId(db: Db, s: RowState, r: PriceRow): Option<int> {
    var main := Lookup(db.products, (r.code, r.manufacturer));
    if Truthy(main) then main else s.lastMatrix
  }

  /** Whether a row records a date-modified update. */
  predicate Dates(o: Options, db: Db, w: RowWrites, s: RowState, r: PriceRow) {
    var id := DateId(db, s, r);
    && Truthy(id) && id.value !in s.dated
    && (o.updateDateAll || ((ProductHit(o, db, w, r) || MatrixHit(o, db, w, r)) && o.updateDate))
  }

  /**
   * The product part of a row adds the product's prices to `updated` iff the
   * product counts as updated, puts the code into `not_found` iff it missed,
   * and touches nothing else.
   */
  lemma {:induction false} ProductStepEffect(o: Options, db: Db, w: RowWrites, s: RowState, r: PriceRow)
    ensures var s' := ProductStep(o, db, w, s, r);
      && s'.updated == s.updated + ProductEntries(o, db, w, r)
      && s'.notFound.Keys == s.notFound.Keys + (if Missed(o, db, w, r) then {r.code} else {})
      && s'.failed == s.failed && s'.dated == s.dated && s'.order == s.order
      && s'.groups == s.groups && s'.lastMatrix == s.lastMatrix
  {
    if !ProductHit(o, db, w, r) && !o.ignoreMissing {
      assert ProductStep(o, db, w, s, r).notFound.Keys == s.notFound.Keys + {r.code};
    }
  }

  /**
   * The matrix part of a row adds the matrix entry's prices to `updated` and
   * takes the code out of `not_found` iff the row matched a matrix entry; it
   * records at most one new product and at most one failure, and keeps the dates.
   */
  lemma {:induction false} MatrixStepEffect(o: Options, db: Db, w: RowWrites, s: RowState, r: PriceRow)
    ensures var s' := MatrixStep(o, db, w, s, r);
      && s'.updated == s.updated + MatrixEntries(o, db, w, r)
      && s'.notFound.Keys == (if MatrixHit(o, db, w, r) then s.notFound.Keys - {r.code} else s.notFound.Keys)
      && s'.dated == s.dated
      && s.order <= s'.order && |s'.order| <= |s.order| + 1
      && s.failed <= s'.failed && |s'.failed| <= |s.failed| + 1
  {
    var s' := MatrixStep(o, db, w, s, r);
    if MatrixHit(o, db, w, r) {
      assert s'.notFound.Keys == s.notFound.Keys - {r.code};
    } else {
      assert s'.notFound.Keys == s.notFound.Keys;
    }
  }

  /** The price entries a row adds to `updated`: the product's, then the matrix entry's. */
  function RowPrices(o: Options, db: Db, w: RowWrites, r: PriceRow): seq<Update> {
    ProductEntries(o, db, w, r) + MatrixEntries(o, db, w, r)
  }

  /** One iteration of the row loop. */
  function Step(o: Options, db: Db, w: RowWrites, s: RowState, r: PriceRow): RowState {
    var s2 := MatrixStep(o, db, w, ProductStep(o, db, w, s, r), r);
    if Dates(o, db, w, s2, r) then
      var id := DateId(db, s2, r).value;
      s2.(updated := s2.updated + [DateModified(id, r.manufacturer, r.code)], dated := s2.dated + {id})
    else s2
  }

  /** Every row of the price list, read. */
  function ParseRows(o: Options, amount: string -> int, entries: seq<Entry>): (rows: seq<PriceRow>)
    ensures |rows| == |entries| && forall i :: 0 <= i < |entries| ==> rows[i] == ParseRow(o, amount, entries[i])
  {
    seq(|entries|, i requires 0 <= i < |entries| => ParseRow(o, amount, entries[i]))
  }

  /**
   * One iteration of the row loop: `updated` gains the row's price entries
   * followed by at most one date entry, and at most one product and one
   * failure are recorded.
   */
  lemma {:induction false} StepEffect(o: Options, db: Db, w: RowWrites, s: RowState, r: PriceRow)
    ensures var u := Step(o, db, w, s, r).updated;
      var n := |s.updated| + |RowPrices(o, db, w, r)|;
      && n <= |u| <= n + 1
      && u[..n] == s.updated + RowPrices(o, db, w, r)
      && (|u| == n + 1 ==> u[n].DateModified?)
    ensures var s' := Step(o, db, w, s, r);
      && s.order <= s'.order && |s'.order| <= |s.order| + 1
      && s.failed <= s'.failed && |s'.failed| <= |s.failed| + 1
  {
    var s1 := ProductStep(o, db, w, s, r);
    var s2 := MatrixStep(o, db, w, s1, r);
    ProductStepEffect(o, db, w, s, r);
    MatrixStepEffect(o, db, w, s1, r);
    assert s2.updated == s.updated + RowPrices(o, db, w, r);
    if Dates(o, db, w, s2, r) {
      var u := Step(o, db, w, s, r).updated;
      assert u == s2.updated + [u[|s2.updated|]];
      assert u[..|s2.updated|] == s2.updated;
    }
  }

  /** The state after the first `k` rows. */
  function Fold(o: Options, db: Db, writes: nat -> RowWrites, rows: seq<PriceRow>, k: nat): RowState
    requires k <= |rows|
  {
    if k == 0 then InitialState
    else Step(o, db, writes(k - 1), Fold(o, db, writes, rows, k - 1), rows[k - 1])
  }

  /** After `k` rows at most `k` products are matched and at most `k` failures recorded. */
  lemma {:induction false} FoldBounds(o: Options, db: Db, writes: nat -> RowWrites, rows: seq<PriceRow>, k: nat)
    requires k <= |rows|
    ensures |Fold(o, db, writes, rows, k).order| <= k && |Fold(o, db, writes, rows, k).failed| <= k
  {
    if k > 0 {
      FoldBounds(o, db, writes, rows, k - 1);
      StepEffect(o, db, writes(k - 1), Fold(o, db, writes, rows, k - 1), rows[k - 1]);
      assert Fold(o, db, writes, rows, k) == Step(o, db, writes(k - 1), Fold(o, db, writes, rows, k - 1), rows[k - 1]);
    }
  }

  // ---------------------------------------------------------------------------
  // What the row loop promises
  // ---------------------------------------------------------------------------

  /** Row `i` put its code `c` into `not_found` and did not match a matrix entry. */
  predicate MissAt(o: Options, db: Db, writes: nat -> RowWrites, rows: seq<PriceRow>, i: nat, c: string)
    requires i < |rows|
  {
    var r := rows[i];
    r.code == c && Missed(o, db, writes(i), r) && !MatrixHit(o, db, writes(i), r)
  }

  /** No row in `[a, b)` with code `c` matched a matrix entry. */
  predicate NoMatchBetween(o: Options, db: Db, writes: nat -> RowWrites, rows: seq<PriceRow>, a: nat, b: nat, c: string)
    requires b <= |rows|
  {
    forall j :: a <= j < b ==>
      var r := rows[j];
      r.code == c ==> !MatrixHit(o, db, writes(j), r)
  }

  lemma {:induction false} StepNotFound(o: Options, db: Db, w: RowWrites, s: RowState, r: PriceRow, c: string)
    ensures c in Step(o, db, w, s, r).notFound <==>
      (c in s.notFound && !(r.code == c && MatrixHit(o, db, w, r))) ||
      (r.code == c && Missed(o, db, w, r) && !MatrixHit(o, db, w, r))
  {
  }

  /**
   * A code ends up in `not_found` exactly when some row with that code found
   * no product (and missing products are not ignored), and neither that row
   * nor any later row with the same code matched a matrix entry.
   */
  lemma {:induction false} NotFoundExact(o: Options, db: Db, writes: nat -> RowWrites, rows: seq<PriceRow>, k: nat, c: string)
    requires k <= |rows|
    ensures c in Fold(o, db, writes, rows, k).notFound <==>
      exists i :: 0 <= i < k && MissAt(o, db, writes, rows, i, c)
                            && NoMatchBetween(o, db, writes, rows, i + 1, k, c)
  {
    if k > 0 {
      assert Fold(o, db, writes, rows, k) == Step(o, db, writes(k - 1), Fold(o, db, writes, rows, k - 1), rows[k - 1]);
      NotFoundExact(o, db, writes, rows, k - 1, c);
      NotFoundNext(o, db, writes, rows, k, c, Fold(o, db, writes, rows, k - 1), Fold(o, db, writes, rows, k));
    }
  }

  /** The induction step of `NotFoundExact`, on the states before and after row `k - 1`. */
  lemma {:induction false} NotFoundNext(o: Options, db: Db, writes: nat -> RowWrites, rows: seq<PriceRow>, k: nat, c: string,
                                        s: RowState, cur: RowState)
    requires 0 < k <= |rows| && cur == Step(o, db, writes(k - 1), s, rows[k - 1])
    requires c in s.notFound <==>
      exists i :: 0 <= i < k - 1 && MissAt(o, db, writes, rows, i, c)
                                 && NoMatchBetween(o, db, writes, rows, i + 1, k - 1, c)
    ensures c in cur.notFound <==>
      exists i :: 0 <= i < k && MissAt(o, db, writes, rows, i, c)
                             && NoMatchBetween(o, db, writes, rows, i + 1, k, c)
  {
    var n := k - 1;
    var r := rows[n];
    StepNotFound(o, db, writes(n), s, r, c);
    if c in cur.notFound {
      if c in s.notFound && !(r.code == c && MatrixHit(o, db, writes(n), r)) {
        var i :| 0 <= i < n && MissAt(o, db, writes, rows, i, c)
                           && NoMatchBetween(o, db, writes, rows, i + 1, n, c);
        assert NoMatchBetween(o, db, writes, rows, i + 1, k, c);
      } else {
        assert MissAt(o, db, writes, rows, n, c);
        assert NoMatchBetween(o, db, writes, rows, n + 1, k, c);
      }
    }
    if exists i :: 0 <= i < k && MissAt(o, db, writes, rows, i, c)
                             && NoMatchBetween(o, db, writes, rows, i + 1, k, c) {
      var i :| 0 <= i < k && MissAt(o, db, writes, rows, i, c)
                         && NoMatchBetween(o, db, writes, rows, i + 1, k, c);
      if i < n {
        assert NoMatchBetween(o, db, writes, rows, i + 1, n, c);
      }
    }
  }


  /** No code is reported missing when missing products are ignored. */
  lemma {:induction false} IgnoreMissingReportsNone(o: Options, db: Db, writes: nat -> RowWrites, rows: seq<PriceRow>)
    requires o.ignoreMissing
    ensures Fold(o, db, writes, rows, |rows|).notFound == map[]
  {
    forall c ensures c !in Fold(o, db, writes, rows, |rows|).notFound {
      NotFoundExact(o, db, writes, rows, |rows|, c);
    }
  }

  /** The ids of the date-modified entries. */
  ghost predicate DatesRecorded(s: RowState) {
    && (forall i, j :: 0 <= i < j < |s.updated| && s.updated[i].DateModified? && s.updated[j].DateModified?
          ==> s.updated[i].id != s.updated[j].id)
    && (forall i :: 0 <= i < |s.updated| && s.updated[i].DateModified? ==> s.updated[i].id in s.dated)
    && (forall id :: id in s.dated ==> exists i :: 0 <= i < |s.updated| && s.updated[i] .DateModified? && s.updated[i].id == id)
  }

  /** The product and matrix parts of a row add no date entry and leave `dated` alone. */
  lemma {:induction false} PartsKeepDates(o: Options, db: Db, w: RowWrites, s: RowState, r: PriceRow)
    ensures var s2 := MatrixStep(o, db, w, ProductStep(o, db, w, s, r), r);
      && s2.dated == s.dated && s.updated <= s2.updated
      && forall i :: |s.updated| <= i < |s2.updated| ==> !s2.updated[i].DateModified?
  {
  }

  lemma {:induction false} KeepDates(s: RowState, s2: RowState)
    requires DatesRecorded(s)
    requires s2.dated == s.dated && s.updated <= s2.updated
    requires forall i :: |s.updated| <= i < |s2.updated| ==> !s2.updated[i].DateModified?
    ensures DatesRecorded(s2)
  {
    forall id | id in s2.dated
      ensures exists i :: 0 <= i < |s2.updated| && s2.updated[i].DateModified? && s2.updated[i].id == id
    {
      var i :| 0 <= i < |s.updated| && s.updated[i].DateModified? && s.updated[i].id == id;
      assert s2.updated[i] == s.updated[i];
    }
  }

  lemma {:induction false} AddDate(s: RowState, id: int, manufacturer: string, code: string)
    requires DatesRecorded(s) && id !in s.dated
    ensures DatesRecorded(s.(updated := s.updated + [DateModified(id, manufacturer, code)], dated := s.dated + {id}))
  {
    var s3 := s.(updated := s.updated + [DateModified(id, manufacturer, code)], dated := s.dated + {id});
    forall x | x in s3.dated
      ensures exists i :: 0 <= i < |s3.updated| && s3.updated[i].DateModified? && s3.updated[i].id == x
    {
      if x == id {
        assert s3.updated[|s.updated|].id == id;
      } else {
        var i :| 0 <= i < |s.updated| && s.updated[i].DateModified? && s.updated[i].id == x;
        assert s3.updated[i] == s.updated[i];
      }
    }
  }

  lemma {:induction false} StepDates(o: Options, db: Db, w: RowWrites, s: RowState, r: PriceRow)
    requires DatesRecorded(s)
    ensures DatesRecorded(Step(o, db, w, s, r))
  {
    var s2 := MatrixStep(o, db, w, ProductStep(o, db, w, s, r), r);
    PartsKeepDates(o, db, w, s, r);
    KeepDates(s, s2);
    if Dates(o, db, w, s2, r) {
      AddDate(s2, DateId(db, s2, r).value, r.manufacturer, r.code);
    }
  }

  /** The date-modified field of a product id is updated at most once per run, and `dated` lists exactly those ids. */
  lemma {:induction false} DatesAtMostOnce(o: Options, db: Db, writes: nat -> RowWrites, rows: seq<PriceRow>, k: nat)
    requires k <= |rows|
    ensures DatesRecorded(Fold(o, db, writes, rows, k))
  {
    if k > 0 {
      DatesAtMostOnce(o, db, writes, rows, k - 1);
      StepDates(o, db, writes(k - 1), Fold(o, db, writes, rows, k - 1), rows[k - 1]);
      assert Fold(o, db, writes, rows, k) == Step(o, db, writes(k - 1), Fold(o, db, writes, rows, k - 1), rows[k - 1]);
    }
  }

  /** Row `i` matched a matrix entry of product `p` with code `c`. */
  predicate MatchAt(o: Options, db: Db, writes: nat -> RowWrites, rows: seq<PriceRow>, i: nat, p: int, c: string)
    requires i < |rows|
  {
    var r := rows[i];
    r.code == c && MatrixHit(o, db, writes(i), r) && db.matrix[(r.code, r.manufacturer)] == p
  }

  /** `$updated` keyed in insertion order, with no empty group. */
  ghost predicate GroupsWellFormed(s: RowState) {
    && (forall i, j :: 0 <= i < j < |s.order| ==> s.order[i] != s.order[j])
    && (forall p :: p in s.groups <==> p in s.order)
    && (forall p :: p in s.groups ==> s.groups[p] != [])
  }

  /** Only the matrix part of a row touches `$updated`'s keys and groups. */
  lemma {:induction false} StepGroupParts(o: Options, db: Db, w: RowWrites, s: RowState, r: PriceRow)
    ensures var s2 := MatrixStep(o, db, w, ProductStep(o, db, w, s, r), r);
      && ProductStep(o, db, w, s, r).order == s.order && ProductStep(o, db, w, s, r).groups == s.groups
      && Step(o, db, w, s, r).order == s2.order && Step(o, db, w, s, r).groups == s2.groups
  {
  }

  /** A matrix match files its code under the matched product id, adding the id at the end when it is new. */
  lemma {:induction false} MatrixGroups(o: Options, db: Db, w: RowWrites, s: RowState, r: PriceRow, p: int, c: string)
    requires GroupsWellFormed(s)
    ensures GroupsWellFormed(MatrixStep(o, db, w, s, r))
    ensures var g := MatrixStep(o, db, w, s, r).groups;
      (p in g && c in g[p]) <==>
      ((p in s.groups && c in s.groups[p]) ||
       (r.code == c && MatrixHit(o, db, w, r) && db.matrix[(r.code, r.manufacturer)] == p))
  {
    var s2 := MatrixStep(o, db, w, s, r);
    if MatrixHit(o, db, w, r) {
      var q := db.matrix[(r.code, r.manufacturer)];
      assert s2.groups == Append(s.groups, q, [r.code]);
      if q !in s.groups {
        assert s2.order == s.order + [q];
        forall i, j | 0 <= i < j < |s2.order| ensures s2.order[i] != s2.order[j] {
          if j == |s.order| {
            assert s2.order[i] == s.order[i];
          }
        }
      } else {
        assert s2.order == s.order;
      }
    } else {
      assert s2.order == s.order && s2.groups == s.groups;
    }
  }

  lemma {:induction false} StepGroups(o: Options, db: Db, w: RowWrites, s: RowState, r: PriceRow, p: int, c: string)
    requires GroupsWellFormed(s)
    ensures GroupsWellFormed(Step(o, db, w, s, r))
    ensures var g := Step(o, db, w, s, r).groups;
      (p in g && c in g[p]) <==>
      ((p in s.groups && c in s.groups[p]) ||
       (r.code == c && MatrixHit(o, db, w, r) && db.matrix[(r.code, r.manufacturer)] == p))
  {
    var s1 := ProductStep(o, db, w, s, r);
    StepGroupParts(o, db, w, s, r);
    assert GroupsWellFormed(s1);
    MatrixGroups(o, db, w, s1, r, p, c);
  }

  /**
   * The codes grouped under a product id are exactly the codes of the rows
   * that matched one of its matrix entries; the ids keep their first-match
   * order, without repetition.
   */
  lemma {:induction false} GroupsExact(o: Options, db: Db, writes: nat -> RowWrites, rows: seq<PriceRow>, k: nat, p: int, c: string)
    requires k <= |rows|
    ensures GroupsWellFormed(Fold(o, db, writes, rows, k))
    ensures var g := Fold(o, db, writes, rows, k).groups;
      (p in g && c in g[p]) <==> exists i :: 0 <= i < k && MatchAt(o, db, writes, rows, i, p, c)
  {
    if k > 0 {
      var n := k - 1;
      GroupsExact(o, db, writes, rows, n, p, c);
      StepGroups(o, db, writes(n), Fold(o, db, writes, rows, n), rows[n], p, c);
      assert Fold(o, db, writes, rows, k) == Step(o, db, writes(n), Fold(o, db, writes, rows, n), rows[n]);
      MatchOneMore(o, db, writes, rows, n, p, c);
    }
  }

  /** A match among the first `n + 1` rows is one among the first `n` or one at row `n`. */
  lemma {:induction false} MatchOneMore(o: Options, db: Db, writes: nat -> RowWrites, rows: seq<PriceRow>, n: nat, p: int, c: string)
    requires n < |rows|
    ensures (exists i :: 0 <= i < n + 1 && MatchAt(o, db, writes, rows, i, p, c))
        <==> (exists i :: 0 <= i < n && MatchAt(o, db, writes, rows, i, p, c)) || MatchAt(o, db, writes, rows, n, p, c)
  {
    if exists i :: 0 <= i < n + 1 && MatchAt(o, db, writes, rows, i, p, c) {
      var i :| 0 <= i < n + 1 && MatchAt(o, db, writes, rows, i, p, c);
      if i < n {
        assert exists i :: 0 <= i < n && MatchAt(o, db, writes, rows, i, p, c);
      }
    }
  }

  /** `updated` without its date entries. */
  function NonDate(us: seq<Update>): (r: seq<Update>)
    ensures |r| <= |us|
  {
    if us == [] then []
    else NonDate(us[..|us| - 1]) + (if us[|us| - 1].DateModified? then [] else [us[|us| - 1]])
  }

  lemma {:induction false} NonDateAppend(a: seq<Update>, b: seq<Update>)
    ensures NonDate(a + b) == NonDate(a) + NonDate(b)
    decreases |b|
  {
    if b == [] {
      assert a + b == a;
    } else {
      var b' := b[..|b| - 1];
      var last := if b[|b| - 1].DateModified? then [] else [b[|b| - 1]];
      assert (a + b)[..|a + b| - 1] == a + b';
      assert (a + b)[|a + b| - 1] == b[|b| - 1];
      assert NonDate(a + b) == NonDate(a + b') + last;
      assert NonDate(b) == NonDate(b') + last;
      NonDateAppend(a, b');
    }
  }

  /** A date entry or nothing at the end leaves `NonDate` unchanged. */
  lemma {:induction false} NonDateDropsDate(us: seq<Update>, tail: seq<Update>)
    requires |tail| <= 1 && (tail != [] ==> tail[0].DateModified?)
    ensures NonDate(us + tail) == NonDate(us)
  {
    if tail == [] {
      assert us + tail == us;
    } else {
      assert (us + tail)[..|us + tail| - 1] == us;
    }
  }

  /** The price entries of a row hold no date entry. */
  lemma {:induction false} NonDateRowPrices(o: Options, db: Db, w: RowWrites, r: PriceRow)
    ensures NonDate(RowPrices(o, db, w, r)) == RowPrices(o, db, w, r)
  {
    var pe := ProductEntries(o, db, w, r);
    var me := MatrixEntries(o, db, w, r);
    NonDateAppend(pe, me);
    assert NonDate(pe) == pe by {
      if pe != [] { assert pe[..0] == []; }
    }
    assert NonDate(me) == me by {
      if me != [] { assert me[..0] == []; }
    }
  }

  /** The price entries of the first `k` rows, row by row. */
  function PriceEntries(o: Options, db: Db, writes: nat -> RowWrites, rows: seq<PriceRow>, k: nat): seq<Update>
    requires k <= |rows|
  {
    if k == 0 then [] else PriceEntries(o, db, writes, rows, k - 1) + RowPrices(o, db, writes(k - 1), rows[k - 1])
  }

  /** A sequence made of `prefix`, then `prices`, then at most one date entry. */
  lemma {:induction false} NonDateOfRow(prefix: seq<Update>, prices: seq<Update>, u: seq<Update>)
    requires |prefix| + |prices| <= |u| <= |prefix| + |prices| + 1
    requires u[..|prefix| + |prices|] == prefix + prices
    requires |u| == |prefix| + |prices| + 1 ==> u[|prefix| + |prices|].DateModified?
    requires NonDate(prices) == prices
    ensures NonDate(u) == NonDate(prefix) + prices
  {
    var n := |prefix| + |prices|;
    assert u == (prefix + prices) + u[n..];
    NonDateDropsDate(prefix + prices, u[n..]);
    NonDateAppend(prefix, prices);
  }

  /** Apart from date entries, one row adds exactly its price entries to `updated`. */
  lemma {:induction false} StepPrices(o: Options, db: Db, w: RowWrites, s: RowState, r: PriceRow)
    ensures NonDate(Step(o, db, w, s, r).updated) == NonDate(s.updated) + RowPrices(o, db, w, r)
  {
    StepEffect(o, db, w, s, r);
    NonDateRowPrices(o, db, w, r);
    NonDateOfRow(s.updated, RowPrices(o, db, w, r), Step(o, db, w, s, r).updated);
  }

  /** The induction step of `PricesInOrder`, on the states before and after row `k - 1`. */
  lemma {:induction false} PricesNext(o: Options, db: Db, writes: nat -> RowWrites, rows: seq<PriceRow>, k: nat,
                                      prev: RowState, cur: RowState)
    requires 0 < k <= |rows| && cur == Step(o, db, writes(k - 1), prev, rows[k - 1])
    requires NonDate(prev.updated) == PriceEntries(o, db, writes, rows, k - 1)
    ensures NonDate(cur.updated) == PriceEntries(o, db, writes, rows, k)
  {
    StepPrices(o, db, writes(k - 1), prev, rows[k - 1]);
  }

  /**
   * `$result['updated']` apart from its date entries: for each row in file
   * order, its product's prices when the product counted as updated, then
   * its matrix entry's prices when it matched one.
   */
  lemma {:induction false} PricesInOrder(o: Options, db: Db, writes: nat -> RowWrites, rows: seq<PriceRow>, k: nat)
    requires k <= |rows|
    ensures NonDate(Fold(o, db, writes, rows, k).updated) == PriceEntries(o, db, writes, rows, k)
  {
    for i := 0 to k
      invariant NonDate(Fold(o, db, writes, rows, i).updated) == PriceEntries(o, db, writes, rows, i)
    {
      FoldNext(o, db, writes, rows, i);
      PricesNext(o, db, writes, rows, i + 1, Fold(o, db, writes, rows, i), Fold(o, db, writes, rows, i + 1));
    }
  }

  // ---------------------------------------------------------------------------
  // After the rows: unlisted codes, disabling and main prices
  // ---------------------------------------------------------------------------

  /** `array_diff($codes, $product_codes)`: the database codes not on the price list, in order. */
  function Diff(codes: seq<string>, listed: seq<string>): (d: seq<string>)
    ensures |d| <= |codes|
    ensures forall c :: c in d <==> c in codes && c !in listed
  {
    if codes == [] then []
    else
      var init := Diff(codes[..|codes| - 1], listed);
      var c := codes[|codes| - 1];
      assert codes == codes[..|codes| - 1] + [c];
      if c in listed then init else init + [c]
  }

  /**
   * The loop over the unlisted codes of a product: each matrix entry is
   * disabled once; a code whose entry is not enabled, or was disabled by an
   * earlier iteration, gets a warning instead.
   */
  function DisableCodes(db: Db, pid: int, codes: seq<string>): (r: (seq<string>, seq<string>))
  {
    if codes == [] then ([], [])
    else
      var prev := DisableCodes(db, pid, codes[..|codes| - 1]);
      var c := codes[|codes| - 1];
      if (pid, c) in db.matrixEnabled && c !in prev.0 then (prev.0 + [c], prev.1) else (prev.0, prev.1 + [c])
  }

  /**
   * A code is disabled exactly when it is listed and its matrix entry is
   * enabled, and then only once; every code lands on one of the two sides.
   */
  lemma {:induction false} DisableCodesExact(db: Db, pid: int, codes: seq<string>, c: string)
    ensures var r := DisableCodes(db, pid, codes);
      && (c in r.0 <==> c in codes && (pid, c) in db.matrixEnabled)
      && (forall i, j :: 0 <= i < j < |r.0| ==> r.0[i] != r.0[j])
      && |r.0| + |r.1| == |codes|
  {
    if codes != [] {
      var init := codes[..|codes| - 1];
      DisableCodesExact(db, pid, init, c);
      var prev := DisableCodes(db, pid, init);
      var last := codes[|codes| - 1];
      assert codes == init + [last];
      DisableCodesExact(db, pid, init, last);
      var r := DisableCodes(db, pid, codes);
      if (pid, last) in db.matrixEnabled && last !in prev.0 {
        forall i, j | 0 <= i < j < |r.0| ensures r.0[i] != r.0[j] {
          if j == |prev.0| {
            assert r.0[i] == prev.0[i];
          }
        }
      }
    }
  }

  function UnlistedWarnings(codes: seq<string>): (ws: seq<Warning>)
    ensures |ws| == |codes| && forall i :: 0 <= i < |codes| ==> ws[i] == Unlisted(codes[i])
  {
    seq(|codes|, i requires 0 <= i < |codes| => Unlisted(codes[i]))
  }

  function NotDisabledWarnings(codes: seq<string>): (ws: seq<Warning>)
    ensures |ws| == |codes| && forall i :: 0 <= i < |codes| ==> ws[i] == MatrixNotDisabled(codes[i])
  {
    seq(|codes|, i requires 0 <= i < |codes| => MatrixNotDisabled(codes[i]))
  }

  function DisabledCodes(codes: seq<string>): (ds: seq<Disabled>)
    ensures |ds| == |codes| && forall i :: 0 <= i < |codes| ==> ds[i] == DisabledCode(codes[i])
  {
    seq(|codes|, i requires 0 <= i < |codes| => DisabledCode(codes[i]))
  }

  /** The database codes of a product that the price list did not contain. */
  function UnlistedCodes(db: Db, groups: map<int, seq<string>>, pid: int): seq<string> {
    Diff(if pid in db.codes then db.codes[pid] else [], if pid in groups then groups[pid] else [])
  }

  /**
   * The disable-or-warn part for one product: it files entries under `pid`
   * only, disables nothing without the disable option, and when it really
   * disables it always reports the product itself, disabled or not.
   */
  function DisableStep(o: Options, db: Db, rep: Report, pid: int, diff: seq<string>): (rep': Report)
    ensures rep'.updated == rep.updated && rep'.failed == rep.failed && rep'.notFound == rep.notFound
    ensures forall q :: q != pid ==>
      Lookup(rep'.warning, q) == Lookup(rep.warning, q) && Lookup(rep'.disabled, q) == Lookup(rep.disabled, q)
    ensures !o.disableProducts ==> rep'.disabled == rep.disabled
    ensures o.disableProducts && !o.dryRun ==> pid in rep'.disabled || pid in rep'.warning
  {
    if o.disableProducts then
      if o.dryRun then rep.(disabled := rep.disabled[pid := DisabledCodes(diff)])
      else
        var r := DisableCodes(db, pid, diff);
        var rep' := rep.(disabled := Append(rep.disabled, pid, DisabledCodes(r.0)),
                         warning := Append(rep.warning, pid, NotDisabledWarnings(r.1)));
        if pid in db.productDisable then rep'.(disabled := Append(rep'.disabled, pid, [DisabledProduct]))
        else rep'.(warning := Append(rep'.warning, pid, [ProductNotDisabled]))
    else if diff != [] then rep.(warning := rep.warning[pid := UnlistedWarnings(diff)])
    else rep
  }

  /**
   * The main-price part for one product: with the option on and a lowest
   * price known, the product either gets its main-price entry or a warning;
   * nothing else changes.
   */
  function MainPriceStep(o: Options, db: Db, rep: Report, pid: int): (rep': Report)
    ensures rep'.disabled == rep.disabled && rep'.failed == rep.failed && rep'.notFound == rep.notFound
    ensures forall q :: q != pid ==> Lookup(rep'.warning, q) == Lookup(rep.warning, q)
    ensures || rep'.updated == rep.updated
            || (&& o.updateMainPrice && pid in db.lowest && pid in db.mainPriceChanges
                && rep'.updated == rep.updated + [MainPrices(pid, db.lowest[pid].0, db.lowest[pid].1)])
    ensures o.updateMainPrice && pid in db.lowest ==> rep'.updated != rep.updated || pid in rep'.warning
  {
    if o.updateMainPrice && pid in db.lowest then
      var prices := db.lowest[pid];
      if pid in db.mainPriceChanges then rep.(updated := rep.updated + [MainPrices(pid, prices.0, prices.1)])
      else rep.(warning := Append(rep.warning, pid, [MainPriceNotUpdated(prices.0, prices.1)]))
    else rep
  }

  /** The loop over `$updated` for its first `k` keys. */
  function Finish(o: Options, db: Db, s: RowState, k: nat): (rep: Report)
    requires k <= |s.order|
    ensures |rep.updated| <= |s.updated| + k
  {
    if k == 0 then Report(s.updated, s.failed, s.notFound, map[], map[])
    else
      var pid := s.order[k - 1];
      MainPriceStep(o, db, DisableStep(o, db, Finish(o, db, s, k - 1), pid, UnlistedCodes(db, s.groups, pid)), pid)
  }

  /** The whole of `updatePrices` once the price list has been read. */
  function Run(o: Options, amount: string -> int, db: Db, writes: nat -> RowWrites, entries: seq<Entry>): Report {
    var rows := ParseRows(o, amount, entries);
    var s := Fold(o, db, writes, rows, |rows|);
    Finish(o, db, s, |s.order|)
  }

  /** The price list keyed by its header. */
  function Entries(header: Csv.Row, rows: seq<Csv.Row>): (es: seq<Entry>)
    ensures |es| == |rows| && forall i :: 0 <= i < |rows| ==> es[i] == Csv.MapRow(header, rows[i])
  {
    seq(|rows|, i requires 0 <= i < |rows| => Csv.MapRow(header, rows[i]))
  }

  /** Nothing is disabled unless disabling is asked for. */
  lemma {:induction false} NoDisableWithoutOption(o: Options, db: Db, s: RowState, k: nat)
    requires k <= |s.order| && !o.disableProducts
    ensures Finish(o, db, s, k).disabled == map[]
  {
    if k > 0 {
      NoDisableWithoutOption(o, db, s, k - 1);
    }
  }

  /** Membership in a prefix one longer. */
  lemma {:induction false} InPrefix(xs: seq<int>, k: nat, p: int)
    requires 0 < k <= |xs|
    ensures p in xs[..k] <==> p in xs[..k - 1] || p == xs[k - 1]
  {
    assert xs[..k] == xs[..k - 1] + [xs[k - 1]];
  }

  /** Handling one product keeps the row buckets and appends at most a main-price entry to `updated`. */
  lemma {:induction false} ProductStepKeepsRows(o: Options, db: Db, rep: Report, pid: int, diff: seq<string>)
    ensures var rep' := MainPriceStep(o, db, DisableStep(o, db, rep, pid, diff), pid);
      && rep'.failed == rep.failed && rep'.notFound == rep.notFound
      && (rep'.updated == rep.updated || (exists m :: rep'.updated == rep.updated + [m] && m.MainPrices?))
  {
    var rep1 := DisableStep(o, db, rep, pid, diff);
    assert rep1.updated == rep.updated && rep1.failed == rep.failed && rep1.notFound == rep.notFound;
    if o.updateMainPrice && pid in db.lowest && pid in db.mainPriceChanges {
      var prices := db.lowest[pid];
      var m := MainPrices(pid, prices.0, prices.1);
      assert MainPriceStep(o, db, rep1, pid).updated == rep.updated + [m];
    }
  }

  /** The buckets filled by the row loop are kept; the post-loop only appends main-price entries. */
  lemma {:induction false} FinishKeepsRows(o: Options, db: Db, s: RowState, k: nat)
    requires k <= |s.order|
    ensures var rep := Finish(o, db, s, k);
      && rep.failed == s.failed && rep.notFound == s.notFound
      && s.updated <= rep.updated
      && (forall i :: |s.updated| <= i < |rep.updated| ==> rep.updated[i].MainPrices?)
  {
    if k > 0 {
      FinishKeepsRows(o, db, s, k - 1);
      var prev := Finish(o, db, s, k - 1);
      var pid := s.order[k - 1];
      var diff := UnlistedCodes(db, s.groups, pid);
      ProductStepKeepsRows(o, db, prev, pid, diff);
      var rep := Finish(o, db, s, k);
      assert rep == MainPriceStep(o, db, DisableStep(o, db, prev, pid, diff), pid);
      if rep.updated != prev.updated {
        var m :| rep.updated == prev.updated + [m] && m.MainPrices?;
        forall i | |s.updated| <= i < |rep.updated| ensures rep.updated[i].MainPrices? {
          if i < |prev.updated| {
            assert rep.updated[i] == prev.updated[i];
          }
        }
      }
    }
  }

  /** Handling one product files warnings and disables under that product only. */
  lemma {:induction false} ProductStepFilesOnly(o: Options, db: Db, rep: Report, pid: int, diff: seq<string>, q: int)
    requires q != pid
    ensures var rep' := MainPriceStep(o, db, DisableStep(o, db, rep, pid, diff), pid);
      (q in rep'.warning ==> q in rep.warning) && (q in rep'.disabled ==> q in rep.disabled)
  {
    var rep1 := DisableStep(o, db, rep, pid, diff);
    assert q in rep1.warning ==> q in rep.warning;
    assert q in rep1.disabled ==> q in rep.disabled;
  }

  /** Warnings and disables are only filed under the products matched by the row loop. */
  lemma {:induction false} FinishFilesMatched(o: Options, db: Db, s: RowState, k: nat, p: int)
    requires k <= |s.order|
    ensures var rep := Finish(o, db, s, k);
      (p in rep.warning || p in rep.disabled) ==> p in s.order[..k]
  {
    if k > 0 {
      FinishFilesMatched(o, db, s, k - 1, p);
      InPrefix(s.order, k, p);
      var pid := s.order[k - 1];
      var prev := Finish(o, db, s, k - 1);
      var diff := UnlistedCodes(db, s.groups, pid);
      assert Finish(o, db, s, k) == MainPriceStep(o, db, DisableStep(o, db, prev, pid, diff), pid);
      if p != pid {
        ProductStepFilesOnly(o, db, prev, pid, diff, p);
      }
    }
  }

  /** On a dry run with disabling, one product's step lists its unlisted codes under it and changes no other entry. */
  lemma {:induction false} DryRunStep(o: Options, db: Db, rep: Report, pid: int, diff: seq<string>)
    requires o.disableProducts && o.dryRun
    ensures MainPriceStep(o, db, DisableStep(o, db, rep, pid, diff), pid).disabled == rep.disabled[pid := DisabledCodes(diff)]
  {
    var rep1 := DisableStep(o, db, rep, pid, diff);
    assert rep1.disabled == rep.disabled[pid := DisabledCodes(diff)];
  }

  /**
   * A dry run with disabling lists, for each matched product, exactly its
   * database codes that are missing from the price list.
   */
  lemma {:induction false} DryRunDisablesUnlisted(o: Options, db: Db, s: RowState, k: nat, p: int)
    requires k <= |s.order| && o.disableProducts && o.dryRun
    ensures var rep := Finish(o, db, s, k);
      (p in rep.disabled <==> p in s.order[..k]) &&
      (p in rep.disabled ==> rep.disabled[p] == DisabledCodes(UnlistedCodes(db, s.groups, p)))
  {
    if k > 0 {
      DryRunDisablesUnlisted(o, db, s, k - 1, p);
      InPrefix(s.order, k, p);
      var pid := s.order[k - 1];
      var prev := Finish(o, db, s, k - 1);
      var diff := UnlistedCodes(db, s.groups, pid);
      DryRunStep(o, db, prev, pid, diff);
      assert Finish(o, db, s, k) == MainPriceStep(o, db, DisableStep(o, db, prev, pid, diff), pid);
    }
  }

  /** Without disabling or main-price updates, one product's step warns about its unlisted codes, if any, and nothing else. */
  lemma {:induction false} WarnStep(o: Options, db: Db, rep: Report, pid: int, diff: seq<string>)
    requires !o.disableProducts && !o.updateMainPrice
    ensures MainPriceStep(o, db, DisableStep(o, db, rep, pid, diff), pid).warning ==
      if diff != [] then rep.warning[pid := UnlistedWarnings(diff)] else rep.warning
  {
    var rep1 := DisableStep(o, db, rep, pid, diff);
    assert MainPriceStep(o, db, rep1, pid) == rep1;
  }

  /**
   * Without disabling or main-price updates, a matched product gets a warning
   * exactly when it has unlisted codes, and the warning lists those codes.
   */
  lemma {:induction false} WarnsUnlisted(o: Options, db: Db, s: RowState, k: nat, p: int)
    requires k <= |s.order| && !o.disableProducts && !o.updateMainPrice
    ensures var rep := Finish(o, db, s, k);
      (p in rep.warning <==> p in s.order[..k] && UnlistedCodes(db, s.groups, p) != []) &&
      (p in rep.warning ==> rep.warning[p] == UnlistedWarnings(UnlistedCodes(db, s.groups, p)))
  {
    if k > 0 {
      WarnsUnlisted(o, db, s, k - 1, p);
      InPrefix(s.order, k, p);
      var pid := s.order[k - 1];
      var prev := Finish(o, db, s, k - 1);
      var diff := UnlistedCodes(db, s.groups, pid);
      WarnStep(o, db, prev, pid, diff);
      assert Finish(o, db, s, k) == MainPriceStep(o, db, DisableStep(o, db, prev, pid, diff), pid);
    }
  }

  // ---------------------------------------------------------------------------
  // The function itself
  // ---------------------------------------------------------------------------

  /** The disabling loop over the unlisted codes of one product. */
  method DisableMatrixEntries(db: Db, pid: int, diff: seq<string>) returns (done: seq<string>, failedCodes: seq<string>)
    ensures (done, failedCodes) == DisableCodes(db, pid, diff)
  {
    done, failedCodes := [], [];
    for i := 0 to |diff|
      invariant (done, failedCodes) == DisableCodes(db, pid, diff[..i])
    {
      assert diff[..i + 1][..i] == diff[..i];
      if (pid, diff[i]) in db.matrixEnabled && diff[i] !in done {
        done := done + [diff[i]];
      } else {
        failedCodes := failedCodes + [diff[i]];
      }
    }
    assert diff[..|diff|] == diff;
  }

  /** One iteration of the loop over `$updated`: unlisted codes, then the main price. */
  method ReportProduct(o: Options, db: Db, rep: Report, pid: int, diff: seq<string>) returns (rep': Report)
    ensures rep' == MainPriceStep(o, db, DisableStep(o, db, rep, pid, diff), pid)
  {
    rep' := rep;
    if o.disableProducts {
      if o.dryRun {
        rep' := rep'.(disabled := rep'.disabled[pid := DisabledCodes(diff)]);
      } else {
        var done, failedCodes := DisableMatrixEntries(db, pid, diff);
        rep' := rep'.(disabled := Append(rep'.disabled, pid, DisabledCodes(done)),
                      warning := Append(rep'.warning, pid, NotDisabledWarnings(failedCodes)));
        if pid in db.productDisable {
          rep' := rep'.(disabled := Append(rep'.disabled, pid, [DisabledProduct]));
        } else {
          rep' := rep'.(warning := Append(rep'.warning, pid, [ProductNotDisabled]));
        }
      }
    } else if diff != [] {
      rep' := rep'.(warning := rep'.warning[pid := UnlistedWarnings(diff)]);
    }
    if o.updateMainPrice && pid in db.lowest {
      var prices := db.lowest[pid];
      if pid in db.mainPriceChanges {
        rep' := rep'.(updated := rep'.updated + [MainPrices(pid, prices.0, prices.1)]);
      } else {
        rep' := rep'.(warning := Append(rep'.warning, pid, [MainPriceNotUpdated(prices.0, prices.1)]));
      }
    }
  }

  /** The `foreach ($data as $entry)` loop over one batch that starts at row `start`. */
  method ReadBatch(o: Options, amount: string -> int, db: Db, writes: nat -> RowWrites, s: RowState,
                   header: Csv.Row, lines: seq<Csv.Row>, a: nat, b: nat, data: seq<Csv.Record>)
    returns (s': RowState)
    requires a <= b <= |lines| && data == Csv.Records(true, header, lines[a..b])
    requires s == Fold(o, db, writes, ParseRows(o, amount, Entries(header, lines)), a)
    ensures s' == Fold(o, db, writes, ParseRows(o, amount, Entries(header, lines)), b)
  {
    s' := s;
    for k := a to b
      invariant s' == Fold(o, db, writes, ParseRows(o, amount, Entries(header, lines)), k)
    {
      s' := ReadEntry(o, amount, db, writes, s', header, lines, a, b, k, data);
    }
  }

  /** One pass of that loop: entry `k - a` of the batch is row `k` of the file. */
  method ReadEntry(o: Options, amount: string -> int, db: Db, writes: nat -> RowWrites, s: RowState,
                   header: Csv.Row, lines: seq<Csv.Row>, a: nat, b: nat, k: nat, data: seq<Csv.Record>)
    returns (s': RowState)
    requires a <= k < b <= |lines| && data == Csv.Records(true, header, lines[a..b])
    requires s == Fold(o, db, writes, ParseRows(o, amount, Entries(header, lines)), k)
    ensures s' == Fold(o, db, writes, ParseRows(o, amount, Entries(header, lines)), k + 1)
  {
    BatchAligned(o, amount, header, lines, a, b, k - a);
    var r := ParseRow(o, amount, data[k - a].fields);
    FoldNext(o, db, writes, ParseRows(o, amount, Entries(header, lines)), k);
    s' := Step(o, db, writes(k), s, r);
  }

  /** One more row is one more `Step`. */
  lemma {:induction false} FoldNext(o: Options, db: Db, writes: nat -> RowWrites, rows: seq<PriceRow>, k: nat)
    requires k < |rows|
    ensures Fold(o, db, writes, rows, k + 1) == Step(o, db, writes(k), Fold(o, db, writes, rows, k), rows[k])
  {
  }

  /** Record `j` of a batch `get` hands out parses to the row at `a + j` of the whole file. */
  lemma {:induction false} BatchAligned(o: Options, amount: string -> int, header: Csv.Row, lines: seq<Csv.Row>,
                                        a: nat, b: nat, j: nat)
    requires a <= b <= |lines| && j < b - a
    ensures var data := Csv.Records(true, header, lines[a..b]);
      data[j].Keyed? && ParseRow(o, amount, data[j].fields) == ParseRows(o, amount, Entries(header, lines))[a + j]
  {
    assert lines[a..b][j] == lines[a + j];
  }

  /** The row loop: batches of 2000 rows until the reader has none left. */
  method ReadRows(o: Options, amount: string -> int, db: Db, writes: nat -> RowWrites, importer: Csv.CsvImporter)
    returns (s: RowState)
    requires importer.Valid() && importer.parseHeader && importer.pos == 0
    modifies importer
    ensures s == Fold(o, db, writes, ParseRows(o, amount, Entries(importer.header, importer.rows)), |importer.rows|)
  {
    ghost var rows := ParseRows(o, amount, Entries(importer.header, importer.rows));
    s := InitialState;
    var start: nat := 0;
    var data := importer.Get(2000);
    while data != []
      invariant importer.Valid() && start + |data| == importer.pos
      invariant data == Csv.Records(true, importer.header, importer.rows[start..importer.pos])
      invariant s == Fold(o, db, writes, rows, start)
      invariant data == [] ==> importer.pos == |importer.rows|
      decreases importer.Remaining() + |data|
    {
      s := ReadBatch(o, amount, db, writes, s, importer.header, importer.rows, start, importer.pos, data);
      start := importer.pos;
      data := importer.Get(2000);
    }
  }

  /**
   * `updatePrices($dbc, $filename, $options)`. `file` is the price list's
   * lines (None when it cannot be opened). The CSV reader's exceptions come
   * back as errors; query failures are not modelled.
   */
  method UpdatePrices(file: Option<seq<Csv.Row>>, o: Options, amount: string -> int, db: Db, writes: nat -> RowWrites)
    returns (result: Result<Report, Csv.CsvError>)
    ensures file.None? ==> result == Err(Csv.InvalidFileName)
    ensures file.Some? && file.value == [] ==> result == Err(Csv.HeaderUnreadable)
    ensures file.Some? && file.value != [] ==>
      var missing := Csv.MissingLabels(HeaderLabels(o), file.value[0]);
      && (missing != [] ==> result == Err(Csv.MissingHeaderLabels(missing)))
      && (missing == [] ==> result == Ok(Run(o, amount, db, writes, Entries(file.value[0], file.value[1..]))))
  {
    var reader := Csv.Open(file, true, HeaderLabels(o));
    if reader.Err? {
      return Err(reader.error);
    }
    var s := ReadRows(o, amount, db, writes, reader.value);
    var rep := Report(s.updated, s.failed, s.notFound, map[], map[]);
    for k := 0 to |s.order|
      invariant rep == Finish(o, db, s, k)
    {
      var pid := s.order[k];
      rep := ReportProduct(o, db, rep, pid, UnlistedCodes(db, s.groups, pid));
    }
    return Ok(rep);
  }
}
