/** The database behind the page, as an in-memory store: five tables kept as
    sequences in id order, each with its own id sequence, and one method per
    user action. Every action runs as one atomic step. */
module Store {
  import opened Strings
  import opened Domain
  import opened OrderText

  // ---------------------------------------------------------------------
  // Table invariants
  // ---------------------------------------------------------------------

  function ShortageIdSet(rows: seq<Shortage>): set<nat> {
    set r | r in rows :: r.id
  }

  function OrderIdSet(os: seq<Order>): set<nat> {
    set o | o in os :: o.id
  }

  /** `productos`: ids increase and stay below the next id; names are
      non-blank and unique (the UNIQUE constraint, which compares exactly). */
  predicate ProductsValid(ps: seq<Product>, next: nat) {
    && (forall i, j :: 0 <= i < j < |ps| ==> ps[i].id < ps[j].id && ps[i].name != ps[j].name)
    && (forall i :: 0 <= i < |ps| ==> ps[i].id < next && ps[i].name != [])
  }

  /** `faltantes`: ids increase and stay below the next id; a stored quantity
      is never negative. */
  predicate ShortagesValid(rows: seq<Shortage>, next: nat) {
    && IdsIncreasing(rows)
    && (forall i :: 0 <= i < |rows| ==> rows[i].id < next)
    && (forall i :: 0 <= i < |rows| ==> QuantityOrZero(rows[i]) >= 0.0)
  }

  /** `movimientos`: ids increase, and every entry names an existing shortage. */
  predicate MovementsValid(ms: seq<Movement>, next: nat, shortageIds: set<nat>) {
    && (forall i, j :: 0 <= i < j < |ms| ==> ms[i].id < ms[j].id)
    && (forall i :: 0 <= i < |ms| ==> ms[i].id < next && ms[i].shortageId in shortageIds)
  }

  predicate OrdersValid(os: seq<Order>, next: nat) {
    && (forall i, j :: 0 <= i < j < |os| ==> os[i].id < os[j].id)
    && (forall i :: 0 <= i < |os| ==> os[i].id < next)
  }

  /** `pedido_items`: ids increase; each item belongs to a saved order and
      copies an existing shortage. */
  predicate ItemsValid(items: seq<OrderItem>, next: nat, orderIds: set<nat>, shortageIds: set<nat>) {
    && (forall i, j :: 0 <= i < j < |items| ==> items[i].id < items[j].id)
    && (forall i :: 0 <= i < |items| ==> items[i].id < next)
    && (forall i :: 0 <= i < |items| ==> items[i].orderId in orderIds && items[i].shortageId in shortageIds)
  }

  /** Rows keep their place and their id: shortages are never deleted. */
  predicate SameIds(a: seq<Shortage>, b: seq<Shortage>) {
    |a| == |b| && forall i :: 0 <= i < |a| ==> a[i].id == b[i].id
  }

  lemma SameIdsKeepsIdSet(a: seq<Shortage>, b: seq<Shortage>)
    requires SameIds(a, b)
    ensures ShortageIdSet(a) == ShortageIdSet(b)
    ensures IdsIncreasing(a) ==> IdsIncreasing(b)
  {
    forall x | x in ShortageIdSet(a) ensures x in ShortageIdSet(b) {
      var r :| r in a && r.id == x;
      var i :| 0 <= i < |a| && a[i] == r;
      assert b[i] in b;
    }
    forall x | x in ShortageIdSet(b) ensures x in ShortageIdSet(a) {
      var r :| r in b && r.id == x;
      var i :| 0 <= i < |b| && b[i] == r;
      assert a[i] in a;
    }
  }

  /** In a table with increasing ids, a row is determined by its id. */
  lemma IdDeterminesRow(rows: seq<Shortage>, x: Shortage, y: Shortage)
    requires IdsIncreasing(rows) && x in rows && y in rows && x.id == y.id
    ensures x == y
  {
    var i :| 0 <= i < |rows| && rows[i] == x;
    var j :| 0 <= j < |rows| && rows[j] == y;
    assert !(i < j) && !(j < i);
  }

  // Each write of an action keeps its table's invariant.

  lemma ProductAppended(ps: seq<Product>, next: nat, p: Product)
    requires ProductsValid(ps, next)
    requires p.id == next && p.name != [] && forall j :: 0 <= j < |ps| ==> ps[j].name != p.name
    ensures ProductsValid(ps + [p], next + 1)
  {
  }

  lemma ProductReplaced(ps: seq<Product>, next: nat, k: nat, p: Product)
    requires ProductsValid(ps, next) && k < |ps|
    requires p.id == ps[k].id && p.name != [] && forall j :: 0 <= j < |ps| && j != k ==> ps[j].name != p.name
    ensures ProductsValid(ps[k := p], next)
  {
  }

  lemma ProductRemoved(ps: seq<Product>, next: nat, k: nat)
    requires ProductsValid(ps, next) && k < |ps|
    ensures ProductsValid(ps[..k] + ps[k + 1..], next)
  {
    var r := ps[..k] + ps[k + 1..];
    assert forall i :: 0 <= i < |r| ==> r[i] == ps[if i < k then i else i + 1];
  }

  lemma ShortageReplaced(rows: seq<Shortage>, next: nat, k: nat, r: Shortage)
    requires ShortagesValid(rows, next) && k < |rows|
    requires r.id == rows[k].id && QuantityOrZero(r) >= 0.0
    ensures ShortagesValid(rows[k := r], next)
    ensures ShortageIdSet(rows[k := r]) == ShortageIdSet(rows)
  {
    SameIdsKeepsIdSet(rows, rows[k := r]);
  }

  lemma ShortageAppended(rows: seq<Shortage>, next: nat, r: Shortage)
    requires ShortagesValid(rows, next)
    requires r.id == next && QuantityOrZero(r) >= 0.0
    ensures ShortagesValid(rows + [r], next + 1)
    ensures ShortageIdSet(rows + [r]) == ShortageIdSet(rows) + {r.id}
  {
  }

  /** A rewrite that keeps every id and every quantity keeps the invariant. */
  lemma ShortagesRewritten(rows: seq<Shortage>, next: nat, after: seq<Shortage>)
    requires ShortagesValid(rows, next) && SameIds(rows, after)
    requires forall i :: 0 <= i < |rows| ==> after[i].quantity == rows[i].quantity
    ensures ShortagesValid(after, next)
    ensures ShortageIdSet(after) == ShortageIdSet(rows)
  {
    SameIdsKeepsIdSet(rows, after);
  }

  lemma MovementAppended(ms: seq<Movement>, next: nat, ids: set<nat>, m: Movement)
    requires MovementsValid(ms, next, ids)
    requires m.id == next && m.shortageId in ids
    ensures MovementsValid(ms + [m], next + 1, ids)
  {
  }

  lemma MovementsWiden(ms: seq<Movement>, next: nat, ids: set<nat>, ids2: set<nat>)
    requires MovementsValid(ms, next, ids) && ids <= ids2
    ensures MovementsValid(ms, next, ids2)
  {
  }

  lemma ItemsWiden(items: seq<OrderItem>, next: nat, orderIds: set<nat>, shortageIds: set<nat>,
                   orderIds2: set<nat>, shortageIds2: set<nat>)
    requires ItemsValid(items, next, orderIds, shortageIds) && orderIds <= orderIds2 && shortageIds <= shortageIds2
    ensures ItemsValid(items, next, orderIds2, shortageIds2)
  {
  }

  lemma OrderAppended(os: seq<Order>, next: nat, o: Order)
    requires OrdersValid(os, next) && o.id == next
    ensures OrdersValid(os + [o], next + 1)
    ensures OrderIdSet(os + [o]) == OrderIdSet(os) + {o.id}
  {
  }

  lemma ItemAppended(items: seq<OrderItem>, next: nat, orderIds: set<nat>, shortageIds: set<nat>, it: OrderItem)
    requires ItemsValid(items, next, orderIds, shortageIds)
    requires it.id == next && it.orderId in orderIds && it.shortageId in shortageIds
    ensures ItemsValid(items + [it], next + 1, orderIds, shortageIds)
  {
  }

  // ---------------------------------------------------------------------
  // Lookups and table updates used by the actions
  // ---------------------------------------------------------------------

  /** `WHERE id = :id` on `faltantes`. */
  function FindShortage(rows: seq<Shortage>, id: nat): (r: Option<nat>)
    ensures r.Some? ==> r.value < |rows| && rows[r.value].id == id
    ensures r.None? ==> id !in ShortageIdSet(rows)
  {
    if |rows| == 0 then None
    else if rows[|rows| - 1].id == id then Some(|rows| - 1)
    else
      var t := FindShortage(rows[..|rows| - 1], id);
      assert rows == rows[..|rows| - 1] + [rows[|rows| - 1]];
      t
  }

  /** `WHERE id = :id` on `productos`. */
  function FindProductById(ps: seq<Product>, id: nat): (r: Option<nat>)
    ensures r.Some? ==> r.value < |ps| && ps[r.value].id == id
    ensures r.None? ==> forall j :: 0 <= j < |ps| ==> ps[j].id != id
  {
    if |ps| == 0 then None
    else if ps[|ps| - 1].id == id then Some(|ps| - 1)
    else FindProductById(ps[..|ps| - 1], id)
  }

  /** `SELECT id FROM productos WHERE lower(nombre) = lower(:n) LIMIT 1`; the
      query has no ORDER BY, and the model takes the first row in table
      order. `lower` stands for SQL's `lower()`. */
  function FirstLowerMatch(ps: seq<Product>, n: string, lower: string -> string): (r: Option<nat>)
    ensures r.Some? ==> r.value < |ps| && lower(ps[r.value].name) == lower(n)
    ensures r.Some? ==> forall j :: 0 <= j < r.value ==> lower(ps[j].name) != lower(n)
    ensures r.None? ==> forall j :: 0 <= j < |ps| ==> lower(ps[j].name) != lower(n)
  {
    if |ps| == 0 then None
    else if lower(ps[0].name) == lower(n) then Some(0)
    else
      var t := FirstLowerMatch(ps[1..], n, lower);
      if t.Some? then Some(t.value + 1) else None
  }

  /** The edit guard's verdict: the looked-up row exists and is another
      product. */
  predicate DuplicateGuardRejects(ps: seq<Product>, id: nat, n: string, lower: string -> string) {
    var m := FirstLowerMatch(ps, n, lower);
    m.Some? && ps[m.value].id != id
  }

  /** When no two products share a lower-cased name, the edit guard refuses a
      name exactly when some other product already has it, ignoring case. */
  lemma DuplicateGuardExact(ps: seq<Product>, id: nat, n: string, lower: string -> string)
    requires forall i, j :: 0 <= i < j < |ps| ==> lower(ps[i].name) != lower(ps[j].name)
    ensures DuplicateGuardRejects(ps, id, n, lower) <==>
      exists j :: 0 <= j < |ps| && ps[j].id != id && lower(ps[j].name) == lower(n)
  {
    var m := FirstLowerMatch(ps, n, lower);
    if exists j :: 0 <= j < |ps| && ps[j].id != id && lower(ps[j].name) == lower(n) {
      var j :| 0 <= j < |ps| && ps[j].id != id && lower(ps[j].name) == lower(n);
      assert m.Some?;
      assert !(m.value < j) && !(j < m.value);
    }
  }

  /** The `producto` column, in table order. */
  function ProductNames(rows: seq<Shortage>): seq<string> {
    seq(|rows|, i requires 0 <= i < |rows| => rows[i].product)
  }

  /** `SELECT COUNT(*) FROM faltantes WHERE producto = :p`: the number of
      rows that name the product. */
  function CountNamed(rows: seq<Shortage>, name: string): (c: nat)
    ensures c <= |rows|
    ensures c == multiset(ProductNames(rows))[name]
    ensures c > 0 <==> exists i :: 0 <= i < |rows| && rows[i].product == name
  {
    if |rows| == 0 then 0
    else
      var t := CountNamed(rows[1..], name);
      assert forall i :: 1 <= i < |rows| ==> rows[i] == rows[1..][i - 1];
      assert ProductNames(rows) == [rows[0].product] + ProductNames(rows[1..]);
      (if rows[0].product == name then 1 else 0) + t
  }

  /** `UPDATE faltantes SET estado = :s WHERE id = ANY(:ids)`. */
  function WithStatus(rows: seq<Shortage>, ids: seq<nat>, s: Status): (r: seq<Shortage>)
    ensures SameIds(rows, r)
    ensures forall i :: 0 <= i < |rows| ==> r[i] == (if rows[i].id in ids then rows[i].(status := s) else rows[i])
  {
    seq(|rows|, i requires 0 <= i < |rows| => if rows[i].id in ids then rows[i].(status := s) else rows[i])
  }

  /** How many rows are in status `s`. */
  function CountStatus(rows: seq<Shortage>, s: Status): nat {
    if rows == [] then 0 else (if rows[0].status == s then 1 else 0) + CountStatus(rows[1..], s)
  }

  /** How many rows an update to status `s` lists that are not in `s` yet. */
  function CountNewlyListed(rows: seq<Shortage>, ids: seq<nat>, s: Status): nat {
    if rows == [] then 0
    else (if rows[0].id in ids && rows[0].status != s then 1 else 0) + CountNewlyListed(rows[1..], ids, s)
  }

  /** A status update changes no field but the status, and the number of
      rows in the new status grows by exactly the listed rows that were not
      in it yet. */
  lemma {:induction false} WithStatusCounts(rows: seq<Shortage>, ids: seq<nat>, s: Status)
    ensures forall i :: 0 <= i < |rows| ==> WithStatus(rows, ids, s)[i].(status := rows[i].status) == rows[i]
    ensures CountStatus(WithStatus(rows, ids, s), s) == CountStatus(rows, s) + CountNewlyListed(rows, ids, s)
    decreases |rows|
  {
    if rows != [] {
      WithStatusCounts(rows[1..], ids, s);
      assert WithStatus(rows, ids, s)[1..] == WithStatus(rows[1..], ids, s);
    }
  }

  /** The edit's propagation to one row: a row of the old product takes the
      new name, category, unit and supplier. */
  function RenamedRow(r: Shortage, oldName: string, newName: string, category: string, unit: string, supplier: string): Shortage {
    if r.product == oldName
    then r.(product := newName, category := Some(category), unit := unit, supplier := supplier)
    else r
  }

  /** `UPDATE faltantes SET producto, categoria, unidad, proveedor WHERE
      producto = :viejo`. */
  function Renamed(rows: seq<Shortage>, oldName: string, newName: string, category: string, unit: string, supplier: string): (r: seq<Shortage>)
    ensures SameIds(rows, r)
    ensures forall i :: 0 <= i < |rows| ==> r[i] == RenamedRow(rows[i], oldName, newName, category, unit, supplier)
  {
    seq(|rows|, i requires 0 <= i < |rows| => RenamedRow(rows[i], oldName, newName, category, unit, supplier))
  }

  /** A rename leaves no row under the old name and moves every one of them
      to the new name: the delete guard's count for the new name becomes the
      sum of the two old counts. */
  lemma {:induction false} RenamedCounts(rows: seq<Shortage>, oldName: string, newName: string,
      category: string, unit: string, supplier: string)
    requires oldName != newName
    ensures forall i :: 0 <= i < |rows| ==> Renamed(rows, oldName, newName, category, unit, supplier)[i].product != oldName
    ensures CountNamed(Renamed(rows, oldName, newName, category, unit, supplier), oldName) == 0
    ensures CountNamed(Renamed(rows, oldName, newName, category, unit, supplier), newName)
      == CountNamed(rows, newName) + CountNamed(rows, oldName)
    decreases |rows|
  {
    if rows != [] {
      var r := Renamed(rows, oldName, newName, category, unit, supplier);
      var t := Renamed(rows[1..], oldName, newName, category, unit, supplier);
      RenamedCounts(rows[1..], oldName, newName, category, unit, supplier);
      assert r[1..] == t;
      assert r[0] == RenamedRow(rows[0], oldName, newName, category, unit, supplier);
      assert CountNamed(r, oldName) == CountNamed(t, oldName);
    }
  }

  /** The ids of the rows of a view that are in status `s`, in view order. */
  function IdsWithStatus(view: seq<Shortage>, s: Status): (ids: seq<nat>)
    ensures |ids| <= |view|
    ensures forall x :: x in ids <==> exists r :: r in view && r.status == s && r.id == x
  {
    if view == [] then []
    else
      var t := IdsWithStatus(view[1..], s);
      assert forall r :: r in view <==> r == view[0] || r in view[1..];
      if view[0].status == s then [view[0].id] + t else t
  }

  /** Collected from a view listed newest first (ids strictly decreasing, as
      `ORDER BY id DESC` gives), the ids strictly decrease too, so each row
      is updated and logged once. */
  lemma {:induction false} IdsWithStatusDescending(view: seq<Shortage>, s: Status)
    requires forall i, j :: 0 <= i < j < |view| ==> view[i].id > view[j].id
    ensures forall i, j :: 0 <= i < j < |IdsWithStatus(view, s)| ==>
      IdsWithStatus(view, s)[i] > IdsWithStatus(view, s)[j]
    decreases |view|
  {
    if view != [] {
      var tail := view[1..];
      IdsDecreasingSplit(view);
      IdsWithStatusDescending(tail, s);
      var t := IdsWithStatus(tail, s);
      if view[0].status == s {
        assert IdsWithStatus(view, s) == [view[0].id] + t;
        forall j | 0 <= j < |t| ensures view[0].id > t[j] {
          assert t[j] in t;
        }
      }
    }
  }

  /** Ids that strictly decrease along `view` do so along its tail, and all
      lie below the first row's id. */
  lemma IdsDecreasingSplit(view: seq<Shortage>)
    requires view != [] && forall i, j :: 0 <= i < j < |view| ==> view[i].id > view[j].id
    ensures forall i, j :: 0 <= i < j < |view[1..]| ==> view[1..][i].id > view[1..][j].id
    ensures forall x :: x in view[1..] ==> view[0].id > x.id
  {
    var tail := view[1..];
    forall i, j | 0 <= i < j < |tail| ensures tail[i].id > tail[j].id {
      assert tail[i] == view[i + 1] && tail[j] == view[j + 1];
    }
    forall x | x in tail ensures view[0].id > x.id {
      var k :| 0 <= k < |tail| && tail[k] == x;
      assert view[k + 1] == x;
    }
  }

  /** The movements a loop of `log_mov` calls appends, one per id. */
  function LogEntries(s: Session, firstId: nat, now: Instant, ids: seq<nat>, action: string, before: string, after: string): (r: seq<Movement>)
    ensures |r| == |ids|
  {
    seq(|ids|, k requires 0 <= k < |ids| => Movement(firstId + k, now, s.user, s.role, ids[k], action, before, after, ""))
  }

  /** The line-item copy of one row of the order view. */
  function ItemOf(r: Shortage, orderId: nat, id: nat, now: Instant): OrderItem {
    OrderItem(id, orderId, r.id, r.product, r.category, QuantityOrZero(r), r.unit, r.sector,
              r.supplier, r.status, r.priority, now)
  }

  function ItemsOf(rows: seq<Shortage>, orderId: nat, firstId: nat, now: Instant): (r: seq<OrderItem>)
    ensures |r| == |rows|
  {
    seq(|rows|, k requires 0 <= k < |rows| => ItemOf(rows[k], orderId, firstId + k, now))
  }

  lemma ItemsOfStep(rows: seq<Shortage>, k: nat, orderId: nat, firstId: nat, now: Instant)
    requires k < |rows|
    ensures ItemsOf(rows[..k + 1], orderId, firstId, now)
      == ItemsOf(rows[..k], orderId, firstId, now) + [ItemOf(rows[k], orderId, firstId + k, now)]
  {
  }

  function StatusNames(ss: seq<Status>): seq<string> {
    if ss == [] then [] else [StatusName(ss[0])] + StatusNames(ss[1..])
  }

  /** The product master after `upsert_producto` for the trimmed name `n`: an
      unknown name is inserted, active, with the given category; a known one
      gets the new unit, supplier and timestamp and nothing else. */
  predicate MasterUpserted(before: seq<Product>, after: seq<Product>, nextBefore: nat, nextAfter: nat,
                           n: string, category: string, unit: string, supplier: string, now: Instant) {
    match FindProduct(before, n)
    case None =>
      after == before + [Product(nextBefore, n, Some(category), unit, supplier, true, now, now)]
      && nextAfter == nextBefore + 1
    case Some(k) =>
      after == before[k := before[k].(unit := unit, supplier := supplier, updated := now)]
      && nextAfter == nextBefore
  }

  /** What the upsert promises: an unknown name adds exactly one product,
      carrying the given category; a known name keeps the product count and
      every stored category, and changes only unit, supplier and timestamp. */
  lemma MasterUpsertedSpec(before: seq<Product>, after: seq<Product>, nextBefore: nat, nextAfter: nat,
                           n: string, category: string, unit: string, supplier: string, now: Instant)
    requires MasterUpserted(before, after, nextBefore, nextAfter, n, category, unit, supplier, now)
    ensures |after| == |before| || |after| == |before| + 1
    ensures |after| == |before| + 1 <==> forall j :: 0 <= j < |before| ==> before[j].name != n
    ensures |after| == |before| + 1 ==> (
      && after[|before|].name == n && after[|before|].category == Some(category)
      && after[|before|].active && after[|before|].unit == unit && after[|before|].supplier == supplier)
    ensures forall j :: 0 <= j < |before| ==> (
      && after[j].id == before[j].id && after[j].name == before[j].name && after[j].category == before[j].category
      && after[j].active == before[j].active && after[j].created == before[j].created)
    ensures forall j :: 0 <= j < |before| && before[j].name != n ==> after[j] == before[j]
  {
  }

  // ---------------------------------------------------------------------
  // The shortage table after a submission
  // ---------------------------------------------------------------------

  datatype Submission = Submission(outcome: SubmitOutcome, rows: seq<Shortage>, next: nat)

  /** The second half of `submit`, once the product master is upserted: the
      quantity goes into the open row the merge query finds, or a new
      Pendiente row is appended under the next id. */
  function Merge(rows: seq<Shortage>, next: nat, p: string, c: string, quantity: real, unit: string,
                 priority: string, sector: string, supplier: string, notes: string, now: Instant): Submission
  {
    match LastOpenMatch(rows, p, c, unit, sector)
    case Some(i) =>
      Submission(Merged(rows[i].id), rows[i := rows[i].(quantity := Some(QuantityOrZero(rows[i]) + quantity))], next)
    case None =>
      Submission(Inserted(next),
                 rows + [Shortage(next, now, p, Some(c), Some(quantity), unit, priority, sector, supplier, Pendiente, notes)],
                 next + 1)
  }

  /** What a submission does to the table: it merges exactly when an open row
      with the same product, category, unit and sector exists, and then into
      the one with the highest id, adding the quantity and touching nothing
      else; otherwise it appends one Pendiente row with that key under a
      fresh id. Either way no row is lost and no id changes. */
  lemma MergeSpec(rows: seq<Shortage>, next: nat, p: string, c: string, quantity: real, unit: string,
                  priority: string, sector: string, supplier: string, notes: string, now: Instant)
    requires ShortagesValid(rows, next)
    ensures var m := Merge(rows, next, p, c, quantity, unit, priority, sector, supplier, notes, now);
      && (m.outcome.Merged? <==> exists j :: 0 <= j < |rows| && OpenMatch(rows[j], p, c, unit, sector))
      && (forall j :: 0 <= j < |rows| ==> m.rows[j].id == rows[j].id)
      && (m.outcome.Merged? ==>
            && |m.rows| == |rows| && m.next == next
            && exists i :: 0 <= i < |rows| && rows[i].id == m.outcome.id
                 && OpenMatch(rows[i], p, c, unit, sector)
                 && (forall j :: 0 <= j < |rows| && OpenMatch(rows[j], p, c, unit, sector) ==> rows[j].id <= rows[i].id)
                 && m.rows[i] == rows[i].(quantity := Some(QuantityOrZero(rows[i]) + quantity))
                 && (forall j :: 0 <= j < |rows| && j != i ==> m.rows[j] == rows[j]))
      && (m.outcome.Inserted? ==>
            && m.outcome.id == next && m.next == next + 1
            && m.rows == rows + [m.rows[|rows|]]
            && m.rows[|rows|].id == next && m.rows[|rows|].status == Pendiente
            && m.rows[|rows|].quantity == Some(quantity)
            && OpenMatch(m.rows[|rows|], p, c, unit, sector)
            && (forall j :: 0 <= j < |rows| ==> rows[j].id < next))
  {
    var l := LastOpenMatch(rows, p, c, unit, sector);
    if l.Some? {
      var i := l.value;
      forall j | 0 <= j < |rows| && OpenMatch(rows[j], p, c, unit, sector) ensures rows[j].id <= rows[i].id {
        MergePicksHighestId(rows, p, c, unit, sector, j);
      }
    }
  }

  /** A submission never makes a stored quantity negative. */
  lemma MergeKeepsValid(rows: seq<Shortage>, next: nat, p: string, c: string, quantity: real, unit: string,
                        priority: string, sector: string, supplier: string, notes: string, now: Instant)
    requires ShortagesValid(rows, next) && quantity >= 0.0
    ensures var m := Merge(rows, next, p, c, quantity, unit, priority, sector, supplier, notes, now);
      && ShortagesValid(m.rows, m.next)
      && ShortageIdSet(rows) <= ShortageIdSet(m.rows)
  {
    var l := LastOpenMatch(rows, p, c, unit, sector);
    if l.Some? {
      var i := l.value;
      ShortageReplaced(rows, next, i, rows[i].(quantity := Some(QuantityOrZero(rows[i]) + quantity)));
    } else {
      ShortageAppended(rows, next, Shortage(next, now, p, Some(c), Some(quantity), unit, priority, sector, supplier, Pendiente, notes));
    }
  }

  // ---------------------------------------------------------------------
  // The rows the bulk buttons touch
  // ---------------------------------------------------------------------

  /** Over a table with increasing ids, a row's id is among the ids of a
      view's rows in status `s` exactly when the row is in status `s` and the
      view keeps it. */
  lemma ViewIdsExact(rows: seq<Shortage>, view: seq<Shortage>, keep: Shortage -> bool, s: Status, i: nat)
    requires IdsIncreasing(rows) && i < |rows|
    requires forall x :: x in view <==> x in rows && keep(x)
    ensures rows[i].id in IdsWithStatus(view, s) <==> rows[i].status == s && keep(rows[i])
  {
    if rows[i].id in IdsWithStatus(view, s) {
      var r :| r in view && r.status == s && r.id == rows[i].id;
      IdDeterminesRow(rows, r, rows[i]);
    }
    if rows[i].status == s && keep(rows[i]) {
      assert rows[i] in view;
    }
  }

  /** "Recibir TODO el pedido" on a table with increasing ids: exactly the
      rows of the filtered list view that are in Pedido become Recibido. */
  lemma ReceiveAllRows(rows: seq<Shortage>, role: string, f: ListFilter, search: Shortage -> bool)
    requires IdsIncreasing(rows)
    ensures forall i :: 0 <= i < |rows| ==>
      WithStatus(rows, IdsWithStatus(ListView(rows, role, f, search), Pedido), Recibido)[i] ==
        if rows[i].status == Pedido && ListKeeps(role, f, search, rows[i])
        then rows[i].(status := Recibido) else rows[i]
    ensures forall x :: x in IdsWithStatus(ListView(rows, role, f, search), Pedido) ==> x in ShortageIdSet(rows)
  {
    var view := ListView(rows, role, f, search);
    forall x | x in IdsWithStatus(view, Pedido) ensures x in ShortageIdSet(rows) {
      var r :| r in view && r.status == Pedido && r.id == x;
    }
    forall i | 0 <= i < |rows|
      ensures rows[i].id in IdsWithStatus(ListView(rows, role, f, search), Pedido)
          <==> rows[i].status == Pedido && ListKeeps(role, f, search, rows[i])
    {
      ViewIdsExact(rows, ListView(rows, role, f, search), x => ListKeeps(role, f, search, x), Pedido, i);
    }
  }

  /** Every row of the order view is a copy, under a normalised category, of
      a row of the table; in particular its id is a stored id. */
  lemma OrderRowsFromTable(rows: seq<Shortage>, role: string, included: seq<Status>, fb: Fallback)
    ensures forall x :: x in OrderRows(rows, role, included, fb) ==> x.id in ShortageIdSet(rows)
  {
    OrderRowsSpec(rows, role, included, fb);
    forall x | x in OrderRows(rows, role, included, fb) ensures x.id in ShortageIdSet(rows) {
      var y :| y in rows && OrderKeeps(role, included, y) && x == Normalize(y, fb);
    }
  }

  /** "Pend→Pedido" on a table with increasing ids: exactly the Pendiente
      rows of the order view become Pedido. */
  lemma MarkPendingRows(rows: seq<Shortage>, role: string, included: seq<Status>, fb: Fallback)
    requires IdsIncreasing(rows)
    ensures forall i :: 0 <= i < |rows| ==>
      WithStatus(rows, IdsWithStatus(OrderRows(rows, role, included, fb), Pendiente), Pedido)[i] ==
        if rows[i].status == Pendiente && OrderKeeps(role, included, rows[i])
        then rows[i].(status := Pedido) else rows[i]
  {
    var view := OrderRows(rows, role, included, fb);
    OrderRowsSpec(rows, role, included, fb);
    forall i | 0 <= i < |rows|
      ensures rows[i].id in IdsWithStatus(view, Pendiente)
          <==> rows[i].status == Pendiente && OrderKeeps(role, included, rows[i])
    {
      if rows[i].id in IdsWithStatus(view, Pendiente) {
        var r :| r in view && r.status == Pendiente && r.id == rows[i].id;
        var y :| y in rows && OrderKeeps(role, included, y) && r == Normalize(y, fb);
        IdDeterminesRow(rows, y, rows[i]);
      }
      if rows[i].status == Pendiente && OrderKeeps(role, included, rows[i]) {
        assert Normalize(rows[i], fb) in view;
      }
    }
  }

  // ---------------------------------------------------------------------
  // Outcomes of the actions
  // ---------------------------------------------------------------------

  datatype SubmitOutcome = EmptyProduct | Merged(id: nat) | Inserted(id: nat)
  datatype StatusOutcome = NoSuchRow | Unavailable | Changed
  datatype EditOutcome = EditNotFound | EmptyName | DuplicateName | UniqueViolation | Updated
  datatype DeleteOutcome = NotAdmin | DeleteNotFound | Referenced(count: nat) | Deleted


  class Database {
    var products: seq<Product>
    var shortages: seq<Shortage>
    var movements: seq<Movement>
    var orders: seq<Order>
    var items: seq<OrderItem>
    var nextProduct: nat
    var nextShortage: nat
    var nextMovement: nat
    var nextOrder: nat
    var nextItem: nat

    ghost predicate Valid()
      reads this
    {
      && ProductsValid(products, nextProduct)
      && ShortagesValid(shortages, nextShortage)
      && MovementsValid(movements, nextMovement, ShortageIdSet(shortages))
      && OrdersValid(orders, nextOrder)
      && ItemsValid(items, nextItem, OrderIdSet(orders), ShortageIdSet(shortages))
    }

    /** Empty tables; every id sequence starts at 1. */
    constructor ()
      ensures Valid()
      ensures products == [] && shortages == [] && movements == [] && orders == [] && items == []
    {
      products, shortages, movements, orders, items := [], [], [], [], [];
      nextProduct, nextShortage, nextMovement, nextOrder, nextItem := 1, 1, 1, 1, 1;
    }

    /** `log_mov`: appends one movement for the acting session. */
    method LogMovement(s: Session, shortageId: nat, action: string, before: string, after: string, note: string, now: Instant)
      requires Valid() && shortageId in ShortageIdSet(shortages)
      modifies this
      ensures Valid()
      ensures movements == old(movements) + [Movement(old(nextMovement), now, s.user, s.role, shortageId, action, before, after, note)]
      ensures nextMovement == old(nextMovement) + 1
      ensures products == old(products) && shortages == old(shortages) && orders == old(orders) && items == old(items)
      ensures nextProduct == old(nextProduct) && nextShortage == old(nextShortage)
      ensures nextOrder == old(nextOrder) && nextItem == old(nextItem)
    {
      var m := Movement(nextMovement, now, s.user, s.role, shortageId, action, before, after, note);
      MovementAppended(movements, nextMovement, ShortageIdSet(shortages), m);
      movements := movements + [m];
      nextMovement := nextMovement + 1;
    }

    /** `upsert_producto`: trims name and supplier; a blank name writes
        nothing; returns the category the shortage will carry. */
    method UpsertProduct(name: string, category: string, unit: string, supplier: string, now: Instant)
      returns (effective: string)
      requires Valid()
      modifies this
      ensures Valid()
      ensures Strip(name) == [] ==> effective == category && products == old(products) && nextProduct == old(nextProduct)
      ensures Strip(name) != [] ==>
        && effective == EffectiveCategory(old(products), Strip(name), category)
        && MasterUpserted(old(products), products, old(nextProduct), nextProduct, Strip(name), category, unit, Strip(supplier), now)
      ensures shortages == old(shortages) && movements == old(movements) && orders == old(orders) && items == old(items)
      ensures nextShortage == old(nextShortage) && nextMovement == old(nextMovement)
      ensures nextOrder == old(nextOrder) && nextItem == old(nextItem)
    {
      var n := Strip(name);
      var sup := Strip(supplier);
      if n == [] {
        return category;
      }
      var found := FindProduct(products, n);
      if found.None? {
        var p := Product(nextProduct, n, Some(category), unit, sup, true, now, now);
        ProductAppended(products, nextProduct, p);
        products := products + [p];
        nextProduct := nextProduct + 1;
        return category;
      }
      var k := found.value;
      var stored := Strip(OrEmpty(products[k].category));
      effective := if stored != [] then stored else category;
      var p := products[k].(unit := unit, supplier := sup, updated := now);
      ProductReplaced(products, nextProduct, k, p);
      products := products[k := p];
    }

    /** The second half of a submission, as `Merge` describes it. */
    method MergeOrInsert(p: string, c: string, quantity: real, unit: string, priority: string,
                         sector: string, supplier: string, notes: string, now: Instant)
      returns (outcome: SubmitOutcome)
      requires Valid()
      requires quantity >= 0.0
      modifies this
      ensures Valid()
      ensures products == old(products) && movements == old(movements) && orders == old(orders) && items == old(items)
      ensures nextProduct == old(nextProduct) && nextMovement == old(nextMovement)
      ensures nextOrder == old(nextOrder) && nextItem == old(nextItem)
      ensures var m := Merge(old(shortages), old(nextShortage), p, c, quantity, unit, priority, sector, supplier, notes, now);
        outcome == m.outcome && shortages == m.rows && nextShortage == m.next
    {
      MergeKeepsValid(shortages, nextShortage, p, c, quantity, unit, priority, sector, supplier, notes, now);
      var m := LastOpenMatch(shortages, p, c, unit, sector);
      if m.Some? {
        var i := m.value;
        shortages := shortages[i := shortages[i].(quantity := Some(QuantityOrZero(shortages[i]) + quantity))];
        outcome := Merged(shortages[i].id);
      } else {
        var r := Shortage(nextShortage, now, p, Some(c), Some(quantity), unit, priority, sector, supplier, Pendiente, notes);
        MovementsWiden(movements, nextMovement, ShortageIdSet(shortages), ShortageIdSet(shortages + [r]));
        ItemsWiden(items, nextItem, OrderIdSet(orders), ShortageIdSet(shortages), OrderIdSet(orders), ShortageIdSet(shortages + [r]));
        shortages := shortages + [r];
        outcome := Inserted(nextShortage);
        nextShortage := nextShortage + 1;
      }
    }

    /** The "Guardar" button of the submission form. A blank product is
        refused before any write. Otherwise the product master is upserted,
        and the quantity is added to the highest-id open row with the same
        product, effective category, unit and sector, or a new Pendiente row
        is appended. Neither path writes a movement. */
    method Submit(s: Session, product: string, category: string, quantity: real, unit: string,
                  priority: string, sector: string, supplier: string, notes: string, now: Instant)
      returns (outcome: SubmitOutcome)
      requires Valid()
      requires quantity >= 0.0
      requires sector in AllowedSectors(s.role)
      modifies this
      ensures Valid()
      ensures movements == old(movements) && orders == old(orders) && items == old(items)
      ensures nextMovement == old(nextMovement) && nextOrder == old(nextOrder) && nextItem == old(nextItem)
      ensures Strip(product) == [] ==>
        && outcome == EmptyProduct
        && products == old(products) && shortages == old(shortages)
        && nextProduct == old(nextProduct) && nextShortage == old(nextShortage)
      ensures Strip(product) != [] ==>
        MasterUpserted(old(products), products, old(nextProduct), nextProduct, Strip(product), category, unit, Strip(supplier), now)
      ensures Strip(product) != [] ==>
        var m := Merge(old(shortages), old(nextShortage), Strip(product), EffectiveCategory(old(products), Strip(product), category),
                       quantity, unit, priority, sector, Strip(supplier), Strip(notes), now);
        outcome == m.outcome && shortages == m.rows && nextShortage == m.next
    {
      var p := Strip(product);
      if p == [] {
        return EmptyProduct;
      }
      var sup := Strip(supplier);
      StripIdempotent(product);
      StripIdempotent(supplier);
      var c := UpsertProduct(p, category, unit, sup, now);
      outcome := MergeOrInsert(p, c, quantity, unit, priority, sector, sup, Strip(notes), now);
    }

    /** The per-row buttons Pedido, Recibido and Anular. A button acts only on
        a row the role can see and only while it is enabled; it then sets
        that row's status and logs one CAMBIO_ESTADO movement with the
        previous and the new status. */
    method PressButton(s: Session, id: nat, b: Button, now: Instant) returns (outcome: StatusOutcome)
      requires Valid()
      modifies this
      ensures Valid()
      ensures products == old(products) && orders == old(orders) && items == old(items)
      ensures nextProduct == old(nextProduct) && nextShortage == old(nextShortage)
      ensures nextOrder == old(nextOrder) && nextItem == old(nextItem)
      ensures match FindShortage(old(shortages), id)
        case None =>
          outcome == NoSuchRow && shortages == old(shortages) && movements == old(movements)
          && nextMovement == old(nextMovement)
        case Some(k) =>
          var r := old(shortages)[k];
          if RoleSees(s.role, r) && Enabled(s.role, r.status, b) then
            && outcome == Changed
            && shortages == old(shortages)[k := r.(status := Target(b))]
            && movements == old(movements) + [Movement(old(nextMovement), now, s.user, s.role, id, "CAMBIO_ESTADO",
                                                       StatusName(r.status), StatusName(Target(b)), "")]
            && nextMovement == old(nextMovement) + 1
          else
            outcome == Unavailable && shortages == old(shortages) && movements == old(movements)
            && nextMovement == old(nextMovement)
    {
      var found := FindShortage(shortages, id);
      if found.None? {
        return NoSuchRow;
      }
      var k := found.value;
      var r := shortages[k];
      if !(RoleSees(s.role, r) && Enabled(s.role, r.status, b)) {
        return Unavailable;
      }
      ShortageReplaced(shortages, nextShortage, k, r.(status := Target(b)));
      shortages := shortages[k := r.(status := Target(b))];
      assert shortages[k].id == id;
      LogMovement(s, id, "CAMBIO_ESTADO", StatusName(r.status), StatusName(Target(b)), "", now);
      outcome := Changed;
    }

    /** One `log_mov` per id, in order: the loop after a bulk update. */
    method LogEach(s: Session, ids: seq<nat>, action: string, before: string, after: string, now: Instant)
      requires Valid()
      requires forall x :: x in ids ==> x in ShortageIdSet(shortages)
      modifies this
      ensures Valid()
      ensures movements == old(movements) + LogEntries(s, old(nextMovement), now, ids, action, before, after)
      ensures nextMovement == old(nextMovement) + |ids|
      ensures products == old(products) && shortages == old(shortages) && orders == old(orders) && items == old(items)
      ensures nextProduct == old(nextProduct) && nextShortage == old(nextShortage)
      ensures nextOrder == old(nextOrder) && nextItem == old(nextItem)
    {
      var k := 0;
      while k < |ids|
        invariant 0 <= k <= |ids|
        invariant Valid()
        invariant movements == old(movements) + LogEntries(s, old(nextMovement), now, ids[..k], action, before, after)
        invariant nextMovement == old(nextMovement) + k
        invariant products == old(products) && shortages == old(shortages) && orders == old(orders) && items == old(items)
        invariant nextProduct == old(nextProduct) && nextShortage == old(nextShortage)
        invariant nextOrder == old(nextOrder) && nextItem == old(nextItem)
      {
        LogMovement(s, ids[k], action, before, after, "", now);
        assert LogEntries(s, old(nextMovement), now, ids[..k + 1], action, before, after)
          == LogEntries(s, old(nextMovement), now, ids[..k], action, before, after)
             + [Movement(old(nextMovement) + k, now, s.user, s.role, ids[k], action, before, after, "")];
        k := k + 1;
      }
      assert ids[..k] == ids;
    }

    /** The bulk `UPDATE faltantes SET estado = :s WHERE id = ANY(:ids)`. */
    method SetStatuses(ids: seq<nat>, st: Status)
      requires Valid()
      modifies this
      ensures Valid()
      ensures shortages == WithStatus(old(shortages), ids, st)
      ensures products == old(products) && movements == old(movements) && orders == old(orders) && items == old(items)
      ensures nextProduct == old(nextProduct) && nextShortage == old(nextShortage) && nextMovement == old(nextMovement)
      ensures nextOrder == old(nextOrder) && nextItem == old(nextItem)
    {
      var updated := WithStatus(shortages, ids, st);
      ShortagesRewritten(shortages, nextShortage, updated);
      shortages := updated;
    }

    /** "Recibir TODO el pedido": every row of the filtered list view that is
        in Pedido becomes Recibido, and one RECIBIR_TODO movement
        (Pedido to Recibido) is logged per row, in the view's order (newest
        first). Every other row is left as it was. */
    method ReceiveAll(s: Session, f: ListFilter, search: Shortage -> bool, now: Instant)
      requires Valid()
      modifies this
      ensures Valid()
      ensures products == old(products) && orders == old(orders) && items == old(items)
      ensures nextProduct == old(nextProduct) && nextShortage == old(nextShortage)
      ensures nextOrder == old(nextOrder) && nextItem == old(nextItem)
      ensures SameIds(old(shortages), shortages)
      ensures forall i :: 0 <= i < |old(shortages)| ==>
                shortages[i] == (if old(shortages)[i].status == Pedido && ListKeeps(s.role, f, search, old(shortages)[i])
                                 then old(shortages)[i].(status := Recibido) else old(shortages)[i])
      ensures
        var ids := IdsWithStatus(ListView(old(shortages), s.role, f, search), Pedido);
        && movements == old(movements) + LogEntries(s, old(nextMovement), now, ids, "RECIBIR_TODO", "Pedido", "Recibido")
        && nextMovement == old(nextMovement) + |ids|
    {
      var view := ListView(shortages, s.role, f, search);
      var ids := IdsWithStatus(view, Pedido);
      ReceiveAllRows(shortages, s.role, f, search);
      if ids == [] {
        assert LogEntries(s, nextMovement, now, ids, "RECIBIR_TODO", "Pedido", "Recibido") == [];
        return;
      }
      SetStatuses(ids, Recibido);
      LogEach(s, ids, "RECIBIR_TODO", "Pedido", "Recibido", now);
    }

    /** "Pend→Pedido" in the order view: the Pendiente rows of the view become
        Pedido. No movement is logged. */
    method MarkPendingOrdered(s: Session, included: seq<Status>)
      requires Valid()
      modifies this
      ensures Valid()
      ensures products == old(products) && movements == old(movements) && orders == old(orders) && items == old(items)
      ensures nextProduct == old(nextProduct) && nextShortage == old(nextShortage) && nextMovement == old(nextMovement)
      ensures nextOrder == old(nextOrder) && nextItem == old(nextItem)
      ensures SameIds(old(shortages), shortages)
      ensures forall i :: 0 <= i < |old(shortages)| ==>
                shortages[i] == (if old(shortages)[i].status == Pendiente && OrderKeeps(s.role, included, old(shortages)[i])
                                 then old(shortages)[i].(status := Pedido) else old(shortages)[i])
    {
      var view := OrderRows(shortages, s.role, included, OtrosAsWritten);
      var ids := IdsWithStatus(view, Pendiente);
      MarkPendingRows(shortages, s.role, included, OtrosAsWritten);
      if ids != [] {
        SetStatuses(ids, Pedido);
      }
    }

    /** One `INSERT INTO pedido_items`, under the next item id. */
    method AppendItem(it: OrderItem)
      requires Valid()
      requires it.id == nextItem && it.orderId in OrderIdSet(orders) && it.shortageId in ShortageIdSet(shortages)
      modifies this
      ensures Valid()
      ensures items == old(items) + [it] && nextItem == old(nextItem) + 1
      ensures products == old(products) && shortages == old(shortages) && movements == old(movements) && orders == old(orders)
      ensures nextProduct == old(nextProduct) && nextShortage == old(nextShortage)
      ensures nextMovement == old(nextMovement) && nextOrder == old(nextOrder)
    {
      ItemAppended(items, nextItem, OrderIdSet(orders), ShortageIdSet(shortages), it);
      items := items + [it];
      nextItem := nextItem + 1;
    }

    /** The loop that copies each row of the order view into `pedido_items`
        under order `orderId`. */
    method CopyItems(rows: seq<Shortage>, orderId: nat, now: Instant)
      requires Valid()
      requires orderId in OrderIdSet(orders)
      requires forall r :: r in rows ==> r.id in ShortageIdSet(shortages)
      modifies this
      ensures Valid()
      ensures items == old(items) + ItemsOf(rows, orderId, old(nextItem), now)
      ensures nextItem == old(nextItem) + |rows|
      ensures products == old(products) && shortages == old(shortages) && movements == old(movements) && orders == old(orders)
      ensures nextProduct == old(nextProduct) && nextShortage == old(nextShortage)
      ensures nextMovement == old(nextMovement) && nextOrder == old(nextOrder)
    {
      var k := 0;
      while k < |rows|
        invariant 0 <= k <= |rows|
        invariant Valid()
        invariant items == old(items) + ItemsOf(rows[..k], orderId, old(nextItem), now)
        invariant nextItem == old(nextItem) + k
        invariant products == old(products) && shortages == old(shortages) && movements == old(movements) && orders == old(orders)
        invariant nextProduct == old(nextProduct) && nextShortage == old(nextShortage)
        invariant nextMovement == old(nextMovement) && nextOrder == old(nextOrder)
      {
        assert rows[k] in rows;
        AppendItem(ItemOf(rows[k], orderId, nextItem, now));
        ItemsOfStep(rows, k, orderId, old(nextItem), now);
        k := k + 1;
      }
      assert rows[..k] == rows;
    }

    /** The two inserts of "Guardar pedido": one `pedidos` row holding the
        message, then one `pedido_items` row per row of the view. */
    method InsertOrder(rows: seq<Shortage>, statuses: string, text: string, today: nat, now: Instant)
      returns (orderId: nat)
      requires Valid()
      requires forall r :: r in rows ==> r.id in ShortageIdSet(shortages)
      modifies this
      ensures Valid()
      ensures orderId == old(nextOrder)
      ensures orders == old(orders) + [Order(orderId, now, today, statuses, text)]
      ensures items == old(items) + ItemsOf(rows, orderId, old(nextItem), now)
      ensures nextOrder == old(nextOrder) + 1 && nextItem == old(nextItem) + |rows|
      ensures products == old(products) && shortages == old(shortages) && movements == old(movements)
      ensures nextProduct == old(nextProduct) && nextShortage == old(nextShortage) && nextMovement == old(nextMovement)
    {
      orderId := nextOrder;
      var o := Order(orderId, now, today, statuses, text);
      OrderAppended(orders, nextOrder, o);
      ItemsWiden(items, nextItem, OrderIdSet(orders), ShortageIdSet(shortages), OrderIdSet(orders + [o]), ShortageIdSet(shortages));
      orders := orders + [o];
      nextOrder := nextOrder + 1;
      CopyItems(rows, orderId, now);
    }

    /** "Guardar pedido": saves the order message of the current view as one
        `pedidos` row and copies every row of the view into `pedido_items`.
        An empty view offers no button and writes nothing. */
    method SaveOrder(s: Session, included: seq<Status>, dayMonth: string, today: nat, now: Instant,
                     upper: string -> string, fmt: real -> string)
      returns (saved: Option<nat>)
      requires Valid()
      modifies this
      ensures Valid()
      ensures products == old(products) && shortages == old(shortages) && movements == old(movements)
      ensures nextProduct == old(nextProduct) && nextShortage == old(nextShortage) && nextMovement == old(nextMovement)
      ensures
        var rows := OrderRows(old(shortages), s.role, included, OtrosAsWritten);
        if rows == [] then
          saved == None && orders == old(orders) && items == old(items)
          && nextOrder == old(nextOrder) && nextItem == old(nextItem)
        else
          && saved == Some(old(nextOrder))
          && orders == old(orders) + [Order(old(nextOrder), now, today, Join(StatusNames(included), ","),
                                            OrderMessage(dayMonth, rows, upper, fmt))]
          && items == old(items) + ItemsOf(rows, old(nextOrder), old(nextItem), now)
          && nextOrder == old(nextOrder) + 1
          && nextItem == old(nextItem) + |rows|
    {
      var rows := OrderRows(shortages, s.role, included, OtrosAsWritten);
      if rows == [] {
        return None;
      }
      OrderRowsFromTable(shortages, s.role, included, OtrosAsWritten);
      var text := BuildOrderText(dayMonth, rows, upper, fmt);
      var orderId := InsertOrder(rows, Join(StatusNames(included), ","), text, today, now);
      saved := Some(orderId);
    }

    /** "Guardar cambios" of the product edit form. A blank name, or a name
        the case-insensitive lookup finds on another product, is refused. On
        success the product gets the new fields, and every shortage whose
        product is the old name gets the new name, category, unit and
        supplier. A save that would break the exact-name UNIQUE constraint
        fails without writing. */
    method EditProduct(id: nat, newName: string, category: string, unit: string, supplier: string,
                       active: bool, now: Instant, lower: string -> string)
      returns (outcome: EditOutcome)
      requires Valid()
      modifies this
      ensures Valid()
      ensures movements == old(movements) && orders == old(orders) && items == old(items)
      ensures nextProduct == old(nextProduct) && nextShortage == old(nextShortage) && nextMovement == old(nextMovement)
      ensures nextOrder == old(nextOrder) && nextItem == old(nextItem)
      ensures outcome != Updated ==> products == old(products) && shortages == old(shortages)
      ensures FindProductById(old(products), id).None? ==> outcome == EditNotFound
      ensures FindProductById(old(products), id).Some? ==>
        var k := FindProductById(old(products), id).value;
        var n := Strip(newName);
        if n == [] then outcome == EmptyName
        else if DuplicateGuardRejects(old(products), id, n, lower) then outcome == DuplicateName
        else if (exists j :: 0 <= j < |old(products)| && j != k && old(products)[j].name == n) then outcome == UniqueViolation
        else
          && outcome == Updated
          && products == old(products)[k := old(products)[k].(name := n, category := Some(category), unit := unit,
                                                            supplier := Strip(supplier), active := active, updated := now)]
          && shortages == Renamed(old(shortages), old(products)[k].name, n, category, unit, Strip(supplier))
    {
      var found := FindProductById(products, id);
      if found.None? {
        return EditNotFound;
      }
      var k := found.value;
      var n := Strip(newName);
      if n == [] {
        return EmptyName;
      }
      if DuplicateGuardRejects(products, id, n, lower) {
        return DuplicateName;
      }
      var clash := FindProduct(products, n);
      if clash.Some? && clash.value != k {
        return UniqueViolation;
      }
      var oldName := products[k].name;
      var sup := Strip(supplier);
      var p := products[k].(name := n, category := Some(category), unit := unit, supplier := sup,
                            active := active, updated := now);
      ProductReplaced(products, nextProduct, k, p);
      products := products[k := p];
      var renamed := Renamed(shortages, oldName, n, category, unit, sup);
      ShortagesRewritten(shortages, nextShortage, renamed);
      shortages := renamed;
      outcome := Updated;
    }

    /** "Confirmar eliminación": Admin only; refused, with the count, while any
        shortage carries the product's exact name; otherwise the product row
        is removed. */
    method DeleteProduct(s: Session, id: nat) returns (outcome: DeleteOutcome)
      requires Valid()
      modifies this
      ensures Valid()
      ensures shortages == old(shortages) && movements == old(movements) && orders == old(orders) && items == old(items)
      ensures nextProduct == old(nextProduct) && nextShortage == old(nextShortage) && nextMovement == old(nextMovement)
      ensures nextOrder == old(nextOrder) && nextItem == old(nextItem)
      ensures outcome != Deleted ==> products == old(products)
      ensures s.role != Admin ==> outcome == NotAdmin
      ensures s.role == Admin ==>
        match FindProductById(old(products), id)
        case None => outcome == DeleteNotFound
        case Some(k) =>
          var c := CountNamed(old(shortages), old(products)[k].name);
          if c > 0 then outcome == Referenced(c)
          else outcome == Deleted && products == old(products)[..k] + old(products)[k + 1..]
    {
      if s.role != Admin {
        return NotAdmin;
      }
      var found := FindProductById(products, id);
      if found.None? {
        return DeleteNotFound;
      }
      var k := found.value;
      var c := CountNamed(shortages, products[k].name);
      if c > 0 {
        return Referenced(c);
      }
      ProductRemoved(products, nextProduct, k);
      products := products[..k] + products[k + 1..];
      outcome := Deleted;
    }
  }
}
