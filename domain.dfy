/** The records of the five tables (`productos`, `faltantes`, `movimientos`,
    `pedidos`, `pedido_items`), the roles and the sectors they may use, the
    status buttons, the queries the page runs before it writes, and the two
    row filters of the list and order views. */
module Domain {
  import opened Strings

  datatype Option<T> = None | Some(value: T)

  /** An abstract clock reading, standing for the database's `now()`. */
  type Instant = nat

  /** The four values the page writes into `faltantes.estado`. */
  datatype Status = Pendiente | Pedido | Recibido | Anulado

  function StatusName(s: Status): string {
    match s
    case Pendiente => "Pendiente"
    case Pedido => "Pedido"
    case Recibido => "Recibido"
    case Anulado => "Anulado"
  }

  /** Open rows are the ones a new submission may merge into and the order
      view lists. */
  predicate IsOpen(s: Status) {
    s == Pendiente || s == Pedido
  }

  const Admin: string := "Admin"
  const Sectors: seq<string> := ["Cocina", "Barra", "Salón"]

  /** The categories the submission and edit forms offer. */
  const Categorias: seq<string> := [
    "Almacén", "Verdulería", "Fiambre", "Carnicería", "Pescaderia",
    "Limpieza", "Descartables", "Bebidas", "Panaderia", "Otros"]

  /** The logged-in actor: user name and role, as held in the session. */
  datatype Session = Session(user: string, role: string)

  /** A row of `productos`; `name` is the table's unique key. */
  datatype Product = Product(
    id: nat, name: string, category: Option<string>, unit: string,
    supplier: string, active: bool, created: Instant, updated: Instant)

  /** A row of `faltantes`. `product` is free text, not a reference. */
  datatype Shortage = Shortage(
    id: nat, created: Instant, product: string, category: Option<string>,
    quantity: Option<real>, unit: string, priority: string, sector: string,
    supplier: string, status: Status, notes: string)

  /** A row of `movimientos`, the append-only audit log. */
  datatype Movement = Movement(
    id: nat, created: Instant, user: string, role: string, shortageId: nat,
    action: string, before: string, after: string, note: string)

  /** A row of `pedidos`: a saved order message. */
  datatype Order = Order(id: nat, created: Instant, date: nat, statuses: string, text: string)

  /** A row of `pedido_items`: a frozen copy of one shortage at save time. */
  datatype OrderItem = OrderItem(
    id: nat, orderId: nat, shortageId: nat, product: string, category: Option<string>,
    quantity: real, unit: string, sector: string, supplier: string, status: Status,
    priority: string, created: Instant)

  /** A null quantity counts as zero (`cantidad or 0`). */
  function QuantityOrZero(r: Shortage): real {
    if r.quantity.Some? then r.quantity.value else 0.0
  }

  function OrEmpty(s: Option<string>): string {
    if s.Some? then s.value else ""
  }

  // ---------------------------------------------------------------------
  // Roles and sectors
  // ---------------------------------------------------------------------

  /** The sectors a role may pick when it submits a shortage. */
  function AllowedSectors(role: string): (r: seq<string>)
    ensures 1 <= |r| <= 3
    ensures forall s :: s in r ==> s in Sectors
  {
    if role == Admin then Sectors
    else if role == "Cocina" then ["Cocina"]
    else if role == "Barra" then ["Barra"]
    else if role == "Salón" then ["Salón"]
    else Sectors
  }

  /** The list and order views keep, for a sector role, only the rows of
      that sector; every other role sees every row. */
  predicate RoleSees(role: string, r: Shortage) {
    role in Sectors ==> r.sector == role
  }

  /** Admin and every role that is not a sector name get all three sectors;
      a sector role gets exactly its own sector. */
  lemma AllowedSectorsByRole(role: string)
    ensures role in Sectors ==> AllowedSectors(role) == [role]
    ensures role !in Sectors ==> AllowedSectors(role) == Sectors
    ensures AllowedSectors(Admin) == Sectors
  {
  }

  /** On rows whose sector is one of the three sectors, the view filter and
      the sector list agree: a role sees a row exactly when the row's sector
      is one it may submit for. */
  lemma RoleSeesExactlyAllowed(role: string, r: Shortage)
    requires r.sector in Sectors
    ensures RoleSees(role, r) <==> r.sector in AllowedSectors(role)
  {
  }

  // ---------------------------------------------------------------------
  // Status buttons
  // ---------------------------------------------------------------------

  /** The three per-row buttons of the list view. */
  datatype Button = MarkOrdered | MarkReceived | Cancel

  function Target(b: Button): Status {
    match b
    case MarkOrdered => Pedido
    case MarkReceived => Recibido
    case Cancel => Anulado
  }

  /** Whether a button is enabled for a row in `current` status. */
  predicate Enabled(role: string, current: Status, b: Button) {
    match b
    case MarkOrdered => current != Recibido && current != Anulado
    case MarkReceived => current != Recibido && current != Anulado
    case Cancel => role == Admin && current != Anulado
  }

  /** Position in the lifecycle Pendiente, Pedido, Recibido, Anulado. */
  function Rank(s: Status): nat {
    match s
    case Pendiente => 0
    case Pedido => 1
    case Recibido => 2
    case Anulado => 3
  }

  /** Every enabled button moves a row forward or keeps it where it is (a
      Pedido row may be marked Pedido again); no button reopens a row. */
  lemma ButtonsNeverGoBack(role: string, current: Status, b: Button)
    requires Enabled(role, current, b)
    ensures Rank(current) <= Rank(Target(b))
    ensures Target(b) != Pendiente
  {
  }

  /** A Recibido or Anulado row cannot be marked Pedido or Recibido; only an
      Admin can cancel, and only a row that is not already Anulado, so a
      Recibido row can still become Anulado and Anulado is final. */
  lemma ClosedRowsOnlyCancellable(role: string, current: Status, b: Button)
    ensures (current == Recibido || current == Anulado) && b != Cancel ==> !Enabled(role, current, b)
    ensures Enabled(role, current, Cancel) <==> role == Admin && current != Anulado
    ensures current == Anulado ==> !Enabled(role, current, b)
  {
  }

  // ---------------------------------------------------------------------
  // Product master lookup and the sticky category
  // ---------------------------------------------------------------------

  /** `SELECT ... FROM productos WHERE nombre = :nombre LIMIT 1`, taken as the
      first row in table order. */
  function FindProduct(ps: seq<Product>, name: string): (r: Option<nat>)
    ensures r.Some? ==> r.value < |ps| && ps[r.value].name == name
    ensures r.Some? ==> forall j :: 0 <= j < r.value ==> ps[j].name != name
    ensures r.None? ==> forall j :: 0 <= j < |ps| ==> ps[j].name != name
  {
    if |ps| == 0 then None
    else if ps[0].name == name then Some(0)
    else
      var t := FindProduct(ps[1..], name);
      if t.Some? then Some(t.value + 1) else None
  }

  /** The category the product upsert hands back for `name` (already
      trimmed): the stored one, trimmed, when the product exists with a
      non-blank category, and the caller's otherwise. */
  function EffectiveCategory(ps: seq<Product>, name: string, given: string): (r: string)
    ensures r == given || exists k :: 0 <= k < |ps| && ps[k].name == name && r == Strip(OrEmpty(ps[k].category))
    ensures (forall k :: 0 <= k < |ps| && ps[k].name == name ==> AllSpace(OrEmpty(ps[k].category))) ==> r == given
  {
    match FindProduct(ps, name)
    case None => given
    case Some(k) =>
      StripSpec(OrEmpty(ps[k].category));
      var stored := Strip(OrEmpty(ps[k].category));
      if stored != [] then stored else given
  }

  /** Whatever the caller selects, an existing product with a non-blank
      stored category keeps it: two calls with different categories give the
      same answer, and the answer is not blank. */
  lemma StoredCategoryWins(ps: seq<Product>, name: string, given1: string, given2: string, k: nat)
    requires k < |ps| && ps[k].name == name
    requires forall i, j :: 0 <= i < j < |ps| ==> ps[i].name != ps[j].name
    requires !AllSpace(OrEmpty(ps[k].category))
    ensures EffectiveCategory(ps, name, given1) == EffectiveCategory(ps, name, given2)
    ensures EffectiveCategory(ps, name, given1) == Strip(OrEmpty(ps[k].category)) != []
  {
    StripSpec(OrEmpty(ps[k].category));
  }

  // ---------------------------------------------------------------------
  // The open row a submission merges into
  // ---------------------------------------------------------------------

  /** The merge query's WHERE clause: same product, category (a null
      category never matches), unit and sector, and status Pendiente or
      Pedido. */
  predicate OpenMatch(r: Shortage, product: string, category: string, unit: string, sector: string) {
    r.product == product && r.category == Some(category) && r.unit == unit
    && r.sector == sector && IsOpen(r.status)
  }

  /** The merge query (`ORDER BY id DESC LIMIT 1`) over a table kept in id
      order: the index of the last matching row, if any. */
  function LastOpenMatch(rows: seq<Shortage>, product: string, category: string, unit: string, sector: string): (r: Option<nat>)
    ensures r.Some? ==> r.value < |rows| && OpenMatch(rows[r.value], product, category, unit, sector)
    ensures r.Some? ==> forall j :: r.value < j < |rows| ==> !OpenMatch(rows[j], product, category, unit, sector)
    ensures r.None? ==> forall j :: 0 <= j < |rows| ==> !OpenMatch(rows[j], product, category, unit, sector)
  {
    if |rows| == 0 then None
    else if OpenMatch(rows[|rows| - 1], product, category, unit, sector) then Some(|rows| - 1)
    else LastOpenMatch(rows[..|rows| - 1], product, category, unit, sector)
  }

  predicate IdsIncreasing(rows: seq<Shortage>) {
    forall i, j :: 0 <= i < j < |rows| ==> rows[i].id < rows[j].id
  }

  /** In a table whose ids increase, the row the merge picks is the open
      match with the highest id. */
  lemma MergePicksHighestId(rows: seq<Shortage>, product: string, category: string, unit: string, sector: string, j: nat)
    requires IdsIncreasing(rows)
    requires j < |rows| && OpenMatch(rows[j], product, category, unit, sector)
    ensures LastOpenMatch(rows, product, category, unit, sector).Some?
    ensures rows[j].id <= rows[LastOpenMatch(rows, product, category, unit, sector).value].id
  {
  }

  // ---------------------------------------------------------------------
  // Row filters of the two views
  // ---------------------------------------------------------------------

  /** The rows of `rows` that `keep` accepts, in their original order. */
  function Select(rows: seq<Shortage>, keep: Shortage -> bool): (r: seq<Shortage>)
    ensures |r| <= |rows|
    ensures forall x :: x in r <==> x in rows && keep(x)
  {
    if |rows| == 0 then []
    else if keep(rows[0]) then [rows[0]] + Select(rows[1..], keep)
    else Select(rows[1..], keep)
  }

  /** Selecting neither repeats nor drops a kept row: each kept row occurs
      in the selection exactly as often as in `rows`, and no other row
      occurs. */
  lemma {:induction false} SelectCounts(rows: seq<Shortage>, keep: Shortage -> bool)
    ensures forall x :: multiset(Select(rows, keep))[x] == if keep(x) then multiset(rows)[x] else 0
    decreases |rows|
  {
    if rows != [] {
      SelectCounts(rows[1..], keep);
      assert rows == [rows[0]] + rows[1..];
      assert multiset(rows) == multiset{rows[0]} + multiset(rows[1..]);
    }
  }

  /** Selecting keeps the rows in table order: over a table whose ids
      increase, the ids of the selection increase too. */
  lemma {:induction false} SelectKeepsIdOrder(rows: seq<Shortage>, keep: Shortage -> bool)
    requires IdsIncreasing(rows)
    ensures IdsIncreasing(Select(rows, keep))
    decreases |rows|
  {
    if rows != [] {
      var tail := rows[1..];
      IdsIncreasingSplit(rows);
      SelectKeepsIdOrder(tail, keep);
      var t := Select(tail, keep);
      if keep(rows[0]) {
        assert Select(rows, keep) == [rows[0]] + t;
        forall j | 0 <= j < |t| ensures rows[0].id < t[j].id {
          assert t[j] in tail;
        }
      }
    }
  }

  /** Ids that increase along `rows` increase along its tail, and all lie
      above the first row's id. */
  lemma IdsIncreasingSplit(rows: seq<Shortage>)
    requires rows != [] && IdsIncreasing(rows)
    ensures IdsIncreasing(rows[1..])
    ensures forall x :: x in rows[1..] ==> rows[0].id < x.id
  {
    var tail := rows[1..];
    forall i, j | 0 <= i < j < |tail| ensures tail[i].id < tail[j].id {
      assert tail[i] == rows[i + 1] && tail[j] == rows[j + 1];
    }
    forall x | x in tail ensures rows[0].id < x.id {
      var k :| 0 <= k < |tail| && tail[k] == x;
      assert rows[k + 1] == x;
    }
  }

  function Reverse(rows: seq<Shortage>): (r: seq<Shortage>)
    ensures |r| == |rows|
    ensures forall i :: 0 <= i < |rows| ==> r[i] == rows[|rows| - 1 - i]
  {
    if rows == [] then [] else Reverse(rows[1..]) + [rows[0]]
  }

  /** The multiselect filters of the list view; an empty selection filters
      nothing. The sector selection is only offered to Admin. */
  datatype ListFilter = ListFilter(
    statuses: seq<Status>, sectors: seq<string>, categories: seq<string>, priorities: seq<string>)

  /** Whether the list view shows row `r`; `search` stands for the two free-text
      "contains" boxes. */
  predicate ListKeeps(role: string, f: ListFilter, search: Shortage -> bool, r: Shortage) {
    && RoleSees(role, r)
    && (f.statuses == [] || r.status in f.statuses)
    && (role != Admin || f.sectors == [] || r.sector in f.sectors)
    && (f.categories == [] || (r.category.Some? && r.category.value in f.categories))
    && (f.priorities == [] || r.priority in f.priorities)
    && search(r)
  }

  /** The list view: the filtered rows, newest (highest id) first. */
  function ListView(rows: seq<Shortage>, role: string, f: ListFilter, search: Shortage -> bool): (r: seq<Shortage>)
    ensures forall x :: x in r <==> x in rows && ListKeeps(role, f, search, x)
    ensures IdsIncreasing(rows) ==> forall i, j :: 0 <= i < j < |r| ==> r[i].id > r[j].id
  {
    var keep := x => ListKeeps(role, f, search, x);
    var kept := Select(rows, keep);
    assert IdsIncreasing(rows) ==> IdsIncreasing(kept) by {
      if IdsIncreasing(rows) { SelectKeepsIdOrder(rows, keep); }
    }
    var rev := Reverse(kept);
    assert forall x :: x in rev <==> x in kept by {
      forall x ensures x in rev <==> x in kept {
        if x in kept {
          var i :| 0 <= i < |kept| && kept[i] == x;
          assert rev[|kept| - 1 - i] == x;
        }
      }
    }
    rev
  }

  /** A sector role never sees, in the list view, a row of another sector. */
  lemma ListViewRespectsRole(rows: seq<Shortage>, role: string, f: ListFilter, search: Shortage -> bool, x: Shortage)
    requires role in Sectors && x in ListView(rows, role, f, search)
    ensures x.sector == role && x.sector in AllowedSectors(role)
  {
  }
}
