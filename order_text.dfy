/** The "Pedido WhatsApp" view: which rows go into an order, how their
    categories are normalised and sorted, how they are grouped by category,
    and the message built from the groups. */
module OrderText {
  import opened Strings
  import opened Domain

  /** A category that rows without one can be listed under: non-empty and
      trimmed, so that normalising it again changes nothing. */
  type Fallback = s: string | s != [] && !IsSpace(s[0]) && !IsSpace(s[|s| - 1]) witness "Otros"

  /** The fallback the page writes for a missing or blank category. */
  const OtrosAsWritten: Fallback := "OTROS"

  /** The form's own spelling of the same category. Rows without a category
      listed under it share one group, and one heading, with the rows filed
      under "Otros". */
  const Otros: Fallback := "Otros"

  // ---------------------------------------------------------------------
  // Normalising the category
  // ---------------------------------------------------------------------

  /** A null category becomes "", every category is trimmed, and a blank one
      becomes the fallback `fb`. */
  function NormalizedCategory(c: Option<string>, fb: Fallback): (r: string)
    ensures !AllSpace(r)
    ensures AllSpace(OrEmpty(c)) ==> r == fb
    ensures !AllSpace(OrEmpty(c)) ==> r == Strip(OrEmpty(c))
  {
    StripSpec(OrEmpty(c));
    var s := Strip(OrEmpty(c));
    assert !AllSpace(fb) by { assert !IsSpace(fb[0]); }
    if s == [] then fb else s
  }

  /** A normalised category neither starts nor ends with whitespace. */
  lemma NormalizedTrimmed(c: Option<string>, fb: Fallback)
    ensures NormalizedCategory(c, fb) != []
    ensures !IsSpace(NormalizedCategory(c, fb)[0])
    ensures !IsSpace(NormalizedCategory(c, fb)[|NormalizedCategory(c, fb)| - 1])
  {
    StripSpec(OrEmpty(c));
    var s := Strip(OrEmpty(c));
    if s != [] {
      assert NormalizedCategory(c, fb) == s;
    }
  }

  /** Normalising twice is normalising once. */
  lemma NormalizeIdempotent(c: Option<string>, fb: Fallback)
    ensures NormalizedCategory(Some(NormalizedCategory(c, fb)), fb) == NormalizedCategory(c, fb)
  {
    var n := NormalizedCategory(c, fb);
    NormalizedTrimmed(c, fb);
    StripFixed(n);
    assert OrEmpty(Some(n)) == n;
    assert Strip(n) != [];
  }

  function Normalize(r: Shortage, fb: Fallback): Shortage {
    r.(category := Some(NormalizedCategory(r.category, fb)))
  }

  function NormalizeAll(rows: seq<Shortage>, fb: Fallback): (r: seq<Shortage>)
    ensures |r| == |rows|
    ensures forall i :: 0 <= i < |rows| ==> r[i] == Normalize(rows[i], fb)
  {
    if rows == [] then [] else [Normalize(rows[0], fb)] + NormalizeAll(rows[1..], fb)
  }

  // ---------------------------------------------------------------------
  // Sorting by (category, product)
  // ---------------------------------------------------------------------

  function Cat(r: Shortage): string {
    OrEmpty(r.category)
  }

  /** `sort_values(["categoria", "producto"])`: by category, then product. */
  predicate KeyLe(a: Shortage, b: Shortage) {
    if Cat(a) != Cat(b) then StrLe(Cat(a), Cat(b)) else StrLe(a.product, b.product)
  }

  lemma KeyLeTotal(a: Shortage, b: Shortage)
    ensures KeyLe(a, b) || KeyLe(b, a)
  {
    StrLeTotal(Cat(a), Cat(b));
    StrLeTotal(a.product, b.product);
  }

  lemma KeyLeTransitive(a: Shortage, b: Shortage, c: Shortage)
    requires KeyLe(a, b) && KeyLe(b, c)
    ensures KeyLe(a, c)
  {
    if Cat(a) == Cat(b) && Cat(b) == Cat(c) {
      StrLeTransitive(a.product, b.product, c.product);
    } else {
      if Cat(a) == Cat(b) {
        assert StrLe(Cat(a), Cat(c));
      } else if Cat(b) == Cat(c) {
        assert StrLe(Cat(a), Cat(c));
      } else {
        StrLeTransitive(Cat(a), Cat(b), Cat(c));
      }
      if Cat(a) == Cat(c) {
        StrLeAntisymmetric(Cat(b), Cat(c));
      }
    }
  }

  predicate Sorted(s: seq<Shortage>) {
    forall i, j :: 0 <= i < j < |s| ==> KeyLe(s[i], s[j])
  }

  function Insert(x: Shortage, s: seq<Shortage>): (r: seq<Shortage>)
    ensures multiset(r) == multiset(s) + multiset{x}
  {
    if s == [] then [x]
    else if KeyLe(x, s[0]) then [x] + s
    else
      assert s == [s[0]] + s[1..];
      [s[0]] + Insert(x, s[1..])
  }

  /** A stable insertion sort on (category, product): rows with equal keys
      keep their table (id) order. */
  function Sort(s: seq<Shortage>): (r: seq<Shortage>)
    ensures multiset(r) == multiset(s)
  {
    if s == [] then []
    else
      assert s == [s[0]] + s[1..];
      Insert(s[0], Sort(s[1..]))
  }

  /** A lower bound of `x` and of every element of `s` bounds every element
      of `Insert(x, s)`. */
  lemma InsertBounded(b: Shortage, x: Shortage, s: seq<Shortage>)
    requires KeyLe(b, x) && forall j :: 0 <= j < |s| ==> KeyLe(b, s[j])
    ensures forall j :: 0 <= j < |Insert(x, s)| ==> KeyLe(b, Insert(x, s)[j])
  {
    var t := Insert(x, s);
    forall j | 0 <= j < |t| ensures KeyLe(b, t[j]) {
      assert t[j] in multiset(t);
      if t[j] != x {
        assert t[j] in multiset(s);
        var m :| 0 <= m < |s| && s[m] == t[j];
      }
    }
  }

  lemma {:induction false} InsertSorted(x: Shortage, s: seq<Shortage>)
    requires Sorted(s)
    ensures Sorted(Insert(x, s))
  {
    if s == [] {
    } else if KeyLe(x, s[0]) {
      var r := [x] + s;
      forall i, j | 0 <= i < j < |r| ensures KeyLe(r[i], r[j]) {
        if i == 0 && j > 1 { KeyLeTransitive(x, s[0], s[j - 1]); }
      }
    } else {
      KeyLeTotal(x, s[0]);
      InsertSorted(x, s[1..]);
      InsertBounded(s[0], x, s[1..]);
      var t := Insert(x, s[1..]);
      var r := [s[0]] + t;
      forall i, j | 0 <= i < j < |r| ensures KeyLe(r[i], r[j]) {
        if i == 0 { assert r[j] == t[j - 1]; }
        else { assert r[i] == t[i - 1] && r[j] == t[j - 1]; }
      }
    }
  }

  /** Sorting yields a permutation of its input, ordered by (category,
      product). */
  lemma {:induction false} SortSortsAndPermutes(s: seq<Shortage>)
    ensures Sorted(Sort(s))
    ensures multiset(Sort(s)) == multiset(s)
    ensures |Sort(s)| == |s|
  {
    if s != [] {
      SortSortsAndPermutes(s[1..]);
      InsertSorted(s[0], Sort(s[1..]));
    }
    assert |Sort(s)| == |multiset(Sort(s))|;
  }

  // ---------------------------------------------------------------------
  // Which rows an order contains
  // ---------------------------------------------------------------------

  /** The order view's filter: open rows, the role's sector, and the chosen
      statuses (an empty choice filters nothing). */
  predicate OrderKeeps(role: string, included: seq<Status>, r: Shortage) {
    IsOpen(r.status) && RoleSees(role, r) && (included == [] || r.status in included)
  }

  /** The rows of the order view: filtered, normalised under the fallback
      `fb`, sorted. */
  function OrderRows(rows: seq<Shortage>, role: string, included: seq<Status>, fb: Fallback): seq<Shortage> {
    Sort(NormalizeAll(Select(rows, x => OrderKeeps(role, included, x)), fb))
  }

  /** The order view holds exactly the normalised copies of the open rows the
      role may see in the chosen statuses, each as often as the table holds
      it, sorted, each under a non-blank category. */
  lemma OrderRowsSpec(rows: seq<Shortage>, role: string, included: seq<Status>, fb: Fallback)
    ensures Sorted(OrderRows(rows, role, included, fb))
    ensures forall x :: x in OrderRows(rows, role, included, fb) <==>
      exists y :: y in rows && OrderKeeps(role, included, y) && x == Normalize(y, fb)
    ensures multiset(OrderRows(rows, role, included, fb))
      == multiset(NormalizeAll(Select(rows, x => OrderKeeps(role, included, x)), fb))
    ensures |OrderRows(rows, role, included, fb)| == |Select(rows, x => OrderKeeps(role, included, x))|
    ensures forall x :: x in OrderRows(rows, role, included, fb) ==>
      IsOpen(x.status) && x.category.Some? && !AllSpace(x.category.value)
  {
    var kept := Select(rows, x => OrderKeeps(role, included, x));
    var n := NormalizeAll(kept, fb);
    SortSortsAndPermutes(n);
    SortKeepsMembers(n);
    NormalizeAllMembers(kept, fb);
  }

  /** A sector role never sees, in the order view, a row of another sector,
      nor a closed row. */
  lemma OrderRowsRespectRole(rows: seq<Shortage>, role: string, included: seq<Status>, fb: Fallback, x: Shortage)
    requires role in Sectors && x in OrderRows(rows, role, included, fb)
    ensures x.sector == role && IsOpen(x.status)
  {
    OrderRowsSpec(rows, role, included, fb);
    var y :| y in rows && OrderKeeps(role, included, y) && x == Normalize(y, fb);
  }

  lemma SortKeepsMembers(s: seq<Shortage>)
    ensures forall x :: x in Sort(s) <==> x in s
  {
    forall x ensures x in Sort(s) <==> x in s {
      assert x in Sort(s) <==> x in multiset(Sort(s));
      assert x in s <==> x in multiset(s);
    }
  }

  lemma NormalizeAllMembers(s: seq<Shortage>, fb: Fallback)
    ensures forall x :: x in NormalizeAll(s, fb) <==> exists y :: y in s && x == Normalize(y, fb)
  {
    var n := NormalizeAll(s, fb);
    forall x ensures x in n <==> exists y :: y in s && x == Normalize(y, fb) {
      if x in n {
        var i :| 0 <= i < |n| && n[i] == x;
        assert s[i] in s && x == Normalize(s[i], fb);
      }
      if exists y :: y in s && x == Normalize(y, fb) {
        var y :| y in s && x == Normalize(y, fb);
        var i :| 0 <= i < |s| && s[i] == y;
        assert n[i] == x;
      }
    }
  }

  // ---------------------------------------------------------------------
  // Grouping by category
  // ---------------------------------------------------------------------

  /** One group of `groupby("categoria", sort=False)`: its key and its rows. */
  datatype Group = Group(key: string, rows: seq<Shortage>)

  /** How many leading rows have category `c`. */
  function RunLength(rows: seq<Shortage>, c: string): (n: nat)
    ensures n <= |rows|
    ensures forall i :: 0 <= i < n ==> Cat(rows[i]) == c
    ensures n < |rows| ==> Cat(rows[n]) != c
  {
    if rows == [] || Cat(rows[0]) != c then 0 else 1 + RunLength(rows[1..], c)
  }

  /** The runs of equal category, in order of first appearance; on rows
      sorted by category these are exactly pandas' groups. */
  function Groups(rows: seq<Shortage>): seq<Group>
    decreases |rows|
  {
    if rows == [] then []
    else
      var n := RunLength(rows, Cat(rows[0]));
      [Group(Cat(rows[0]), rows[..n])] + Groups(rows[n..])
  }

  function Flatten(gs: seq<Group>): seq<Shortage> {
    if gs == [] then [] else gs[0].rows + Flatten(gs[1..])
  }

  /** The groups split the rows without losing, adding or reordering any;
      every group is non-empty and all its rows carry its key. */
  lemma {:induction false} GroupsPartition(rows: seq<Shortage>)
    ensures Flatten(Groups(rows)) == rows
    ensures forall g :: g in Groups(rows) ==> g.rows != [] && forall r :: r in g.rows ==> Cat(r) == g.key
    decreases |rows|
  {
    if rows != [] {
      var n := RunLength(rows, Cat(rows[0]));
      GroupsPartition(rows[n..]);
      var g0 := Group(Cat(rows[0]), rows[..n]);
      var rest := Groups(rows[n..]);
      var gs := Groups(rows);
      assert gs == [g0] + rest;
      assert gs[0] == g0 && gs[1..] == rest;
      assert Flatten(gs) == rows[..n] + rows[n..];
      assert rows[..n] + rows[n..] == rows;
      assert g0.rows != [] by { assert rows[0] == g0.rows[0]; }
      forall r | r in g0.rows ensures Cat(r) == g0.key {
        var i :| 0 <= i < n && rows[..n][i] == r;
      }
      forall g | g in gs ensures g.rows != [] && forall r :: r in g.rows ==> Cat(r) == g.key {
        if g != g0 { assert g in rest; }
      }
    }
  }

  /** Every group key is the category of some row. */
  lemma {:induction false} GroupKeyOccurs(rows: seq<Shortage>, g: Group)
    requires g in Groups(rows)
    ensures exists i :: 0 <= i < |rows| && Cat(rows[i]) == g.key
    decreases |rows|
  {
    var n := RunLength(rows, Cat(rows[0]));
    if g != Groups(rows)[0] {
      GroupKeyOccurs(rows[n..], g);
      var i :| 0 <= i < |rows[n..]| && Cat(rows[n..][i]) == g.key;
      assert rows[n + i] == rows[n..][i];
    }
  }

  predicate SortedByCat(s: seq<Shortage>) {
    forall i, j :: 0 <= i < j < |s| ==> StrLe(Cat(s[i]), Cat(s[j]))
  }

  lemma SortedIsSortedByCat(s: seq<Shortage>)
    requires Sorted(s)
    ensures SortedByCat(s)
  {
    forall i, j | 0 <= i < j < |s| ensures StrLe(Cat(s[i]), Cat(s[j])) {
      if Cat(s[i]) == Cat(s[j]) { StrLeReflexive(Cat(s[i])); }
    }
  }

  /** On rows sorted by category, no row after the first run has the first
      row's category. */
  lemma RunIsWhole(rows: seq<Shortage>)
    requires rows != [] && SortedByCat(rows)
    ensures forall m :: RunLength(rows, Cat(rows[0])) <= m < |rows| ==> Cat(rows[m]) != Cat(rows[0])
  {
    var c := Cat(rows[0]);
    var n := RunLength(rows, c);
    forall m | n <= m < |rows| ensures Cat(rows[m]) != c {
      if Cat(rows[m]) == c {
        assert StrLe(c, Cat(rows[n]));
        if m > n { assert StrLe(Cat(rows[n]), Cat(rows[m])); }
        else { StrLeReflexive(c); }
        StrLeAntisymmetric(c, Cat(rows[n]));
      }
    }
  }

  /** A suffix of rows sorted by category is sorted by category. */
  lemma SortedByCatSuffix(rows: seq<Shortage>, n: nat)
    requires n <= |rows| && SortedByCat(rows)
    ensures SortedByCat(rows[n..])
  {
    var rest := rows[n..];
    forall i, j | 0 <= i < j < |rest| ensures StrLe(Cat(rest[i]), Cat(rest[j])) {
      assert rest[i] == rows[n + i] && rest[j] == rows[n + j];
    }
  }

  /** On rows sorted by category, no group after the first has the first
      row's category. */
  lemma LaterKeysDiffer(rows: seq<Shortage>)
    requires rows != [] && SortedByCat(rows)
    ensures forall j :: 0 < j < |Groups(rows)| ==> Groups(rows)[j].key != Cat(rows[0])
  {
    var c := Cat(rows[0]);
    var n := RunLength(rows, c);
    var rest := rows[n..];
    var gs := Groups(rows);
    var grest := Groups(rest);
    assert gs == [Group(c, rows[..n])] + grest;
    RunIsWhole(rows);
    forall j | 0 < j < |gs| ensures gs[j].key != c {
      assert gs[j] == grest[j - 1];
      GroupKeyOccurs(rest, grest[j - 1]);
      var i :| 0 <= i < |rest| && Cat(rest[i]) == gs[j].key;
      assert rest[i] == rows[n + i];
    }
  }

  /** On rows sorted by category every category forms one group: no
      category key heads two groups. */
  lemma {:induction false} GroupKeysDistinct(rows: seq<Shortage>)
    requires SortedByCat(rows)
    ensures forall i, j :: 0 <= i < j < |Groups(rows)| ==> Groups(rows)[i].key != Groups(rows)[j].key
    decreases |rows|
  {
    if rows != [] {
      var n := RunLength(rows, Cat(rows[0]));
      var rest := rows[n..];
      SortedByCatSuffix(rows, n);
      GroupKeysDistinct(rest);
      LaterKeysDiffer(rows);
      var gs := Groups(rows);
      var grest := Groups(rest);
      assert gs == [Group(Cat(rows[0]), rows[..n])] + grest;
      forall i, j | 0 <= i < j < |gs| ensures gs[i].key != gs[j].key {
        if i > 0 { assert gs[i] == grest[i - 1] && gs[j] == grest[j - 1]; }
      }
    }
  }

  // ---------------------------------------------------------------------
  // The message
  // ---------------------------------------------------------------------

  const Receipt: char := '\U{1F9FE}'

  function HeaderLine(date: string): string {
    [Receipt] + " PEDIDO " + date
  }

  /** `- {producto} x{cantidad:g} {unidad}`; `fmt` stands for the `:g`
      rendering of the quantity. */
  function ItemLine(r: Shortage, fmt: real -> string): string {
    "- " + r.product + " x" + fmt(QuantityOrZero(r)) + " " + r.unit
  }

  function ItemLines(rows: seq<Shortage>, fmt: real -> string): (r: seq<string>)
    ensures |r| == |rows|
  {
    if rows == [] then [] else ItemLines(rows[..|rows| - 1], fmt) + [ItemLine(rows[|rows| - 1], fmt)]
  }

  /** A group's lines: the upper-cased key, one line per row, a blank line. */
  function Block(g: Group, upper: string -> string, fmt: real -> string): seq<string> {
    [upper(g.key)] + ItemLines(g.rows, fmt) + [""]
  }

  function Blocks(gs: seq<Group>, upper: string -> string, fmt: real -> string): seq<string> {
    if gs == [] then [] else Blocks(gs[..|gs| - 1], upper, fmt) + Block(gs[|gs| - 1], upper, fmt)
  }

  /** The lines of the message before they are joined. */
  function OrderLines(date: string, rows: seq<Shortage>, upper: string -> string, fmt: real -> string): seq<string> {
    [HeaderLine(date), ""] + Blocks(Groups(rows), upper, fmt)
  }

  /** `"\n".join(lineas).strip()`. */
  function OrderMessage(date: string, rows: seq<Shortage>, upper: string -> string, fmt: real -> string): string {
    Strip(Join(OrderLines(date, rows, upper, fmt), "\n"))
  }

  /** The inner loop of the order view for one group: its heading, one line
      per row, then a blank line. */
  method BuildBlock(g: Group, upper: string -> string, fmt: real -> string) returns (block: seq<string>)
    ensures block == Block(g, upper, fmt)
  {
    block := [upper(g.key)];
    var k := 0;
    while k < |g.rows|
      invariant 0 <= k <= |g.rows|
      invariant block == [upper(g.key)] + ItemLines(g.rows[..k], fmt)
    {
      assert g.rows[..k + 1][..k] == g.rows[..k];
      block := block + [ItemLine(g.rows[k], fmt)];
      k := k + 1;
    }
    assert g.rows[..k] == g.rows;
    block := block + [""];
  }

  /** The outer loop of the order view: the header and a blank line, then
      one block per group. */
  method BuildOrderLines(date: string, rows: seq<Shortage>, upper: string -> string, fmt: real -> string)
    returns (lines: seq<string>)
    ensures lines == OrderLines(date, rows, upper, fmt)
  {
    var groups := Groups(rows);
    lines := [HeaderLine(date), ""];
    var gi := 0;
    while gi < |groups|
      invariant 0 <= gi <= |groups|
      invariant lines == [HeaderLine(date), ""] + Blocks(groups[..gi], upper, fmt)
    {
      var block := BuildBlock(groups[gi], upper, fmt);
      lines := lines + block;
      assert groups[..gi + 1][..gi] == groups[..gi];
      gi := gi + 1;
    }
    assert groups[..gi] == groups;
  }

  /** The message as the page builds it: the lines, joined and stripped. */
  method BuildOrderText(date: string, rows: seq<Shortage>, upper: string -> string, fmt: real -> string)
    returns (text: string)
    ensures text == OrderMessage(date, rows, upper, fmt)
  {
    var lines := BuildOrderLines(date, rows, upper, fmt);
    text := Strip(Join(lines, "\n"));
  }

  lemma {:induction false} BlocksLength(gs: seq<Group>, upper: string -> string, fmt: real -> string)
    ensures |Blocks(gs, upper, fmt)| == 2 * |gs| + |Flatten(gs)|
    decreases |gs|
  {
    if gs != [] {
      BlocksLength(gs[..|gs| - 1], upper, fmt);
      FlattenSnoc(gs);
    }
  }

  lemma {:induction false} FlattenSnoc(gs: seq<Group>)
    requires gs != []
    ensures Flatten(gs) == Flatten(gs[..|gs| - 1]) + gs[|gs| - 1].rows
    decreases |gs|
  {
    if |gs| > 1 {
      FlattenSnoc(gs[1..]);
      assert gs[1..][..|gs[1..]| - 1] == gs[..|gs| - 1][1..];
    }
  }

  /** The message has a header, a blank line, and then per category a
      heading, one line per row and a blank line: `2 + 2 * groups + rows`
      lines in all, headed by `PEDIDO {date}`. */
  lemma OrderLinesShape(date: string, rows: seq<Shortage>, upper: string -> string, fmt: real -> string)
    ensures |OrderLines(date, rows, upper, fmt)| == 2 + 2 * |Groups(rows)| + |rows|
    ensures OrderLines(date, rows, upper, fmt)[0] == HeaderLine(date)
    ensures OrderLines(date, rows, upper, fmt)[1] == ""
  {
    BlocksLength(Groups(rows), upper, fmt);
    GroupsPartition(rows);
  }

  lemma {:induction false} BlocksStart(gs: seq<Group>, upper: string -> string, fmt: real -> string)
    requires gs != [] && gs[0].rows != []
    ensures |Blocks(gs, upper, fmt)| >= 3
    ensures Blocks(gs, upper, fmt)[0] == upper(gs[0].key)
    ensures Blocks(gs, upper, fmt)[1] == ItemLine(gs[0].rows[0], fmt)
    decreases |gs|
  {
    if |gs| == 1 {
      ItemLinesFirst(gs[0].rows, fmt);
    } else {
      BlocksStart(gs[..|gs| - 1], upper, fmt);
    }
  }

  lemma {:induction false} ItemLinesFirst(rows: seq<Shortage>, fmt: real -> string)
    requires rows != []
    ensures ItemLines(rows, fmt)[0] == ItemLine(rows[0], fmt)
    decreases |rows|
  {
    if |rows| > 1 { ItemLinesFirst(rows[..|rows| - 1], fmt); }
  }

  lemma JoinTwo(parts: seq<string>, sep: string)
    requires |parts| >= 3
    ensures Join(parts, sep) == parts[0] + sep + parts[1] + sep + Join(parts[2..], sep)
  {
    assert parts[1..][1..] == parts[2..];
  }

  /** Stripping a string that starts with a non-space character keeps every
      character up to its last non-space one. */
  lemma StripKeepsPrefix(s: string, p: string, pos: nat)
    requires |p| <= pos < |s| && s[..|p|] == p && !IsSpace(s[0]) && !IsSpace(s[pos])
    ensures p <= Strip(s)
  {
    assert LStrip(s) == s;
    RStripSpec(s);
    assert Strip(s)[..|p|] == s[..|p|];
  }

  lemma JoinedLinesShape(lines: seq<string>, h: string, b: seq<string>)
    requires |b| >= 1 && lines == [h, ""] + b
    ensures Join(lines, "\n") == (h + "\n\n") + Join(b, "\n")
  {
    var t := lines[1..];
    assert t == [""] + b;
    assert t[1..] == b;
    var jb := Join(b, "\n");
    assert Join(t, "\n") == "\n" + jb;
    assert Join(lines, "\n") == h + "\n" + Join(t, "\n");
    assert h + "\n" + ("\n" + jb) == (h + "\n\n") + jb;
  }

  /** In the joined blocks, the first row's line starts right after the
      first heading and its newline. */
  lemma JoinedBlocksShape(b: seq<string>)
    requires |b| >= 3 && b[1] != []
    ensures |Join(b, "\n")| > |b[0]| + 1
    ensures Join(b, "\n")[|b[0]| + 1] == b[1][0]
  {
    JoinTwo(b, "\n");
    var j := Join(b, "\n");
    assert j == (b[0] + "\n") + (b[1] + "\n" + Join(b[2..], "\n"));
  }

  /** The joined lines of a non-empty order start with the header and a
      blank line, and have a non-space character (the first row's `-`)
      after them. */
  lemma JoinedOrderLines(date: string, rows: seq<Shortage>, upper: string -> string, fmt: real -> string)
    returns (pos: nat)
    requires rows != []
    ensures |HeaderLine(date)| + 2 <= pos < |Join(OrderLines(date, rows, upper, fmt), "\n")|
    ensures Join(OrderLines(date, rows, upper, fmt), "\n")[..|HeaderLine(date)| + 2] == HeaderLine(date) + "\n\n"
    ensures !IsSpace(Join(OrderLines(date, rows, upper, fmt), "\n")[0])
    ensures !IsSpace(Join(OrderLines(date, rows, upper, fmt), "\n")[pos])
  {
    var gs := Groups(rows);
    GroupsPartition(rows);
    assert gs[0] in gs;
    var b := Blocks(gs, upper, fmt);
    BlocksStart(gs, upper, fmt);
    var h := HeaderLine(date);
    var h2 := h + "\n\n";
    var lines := OrderLines(date, rows, upper, fmt);
    JoinedLinesShape(lines, h, b);
    JoinedBlocksShape(b);
    var jb := Join(b, "\n");
    var j := Join(lines, "\n");
    assert j == h2 + jb;
    pos := |h2| + |b[0]| + 1;
    assert j[pos] == jb[|b[0]| + 1] == '-';
    assert j[0] == Receipt;
  }

  /** For a non-empty order the message begins with the `PEDIDO {date}`
      header followed by a blank line, and has no leading or trailing
      whitespace. */
  lemma MessageStartsWithHeader(date: string, rows: seq<Shortage>, upper: string -> string, fmt: real -> string)
    requires rows != []
    ensures HeaderLine(date) + "\n\n" <= OrderMessage(date, rows, upper, fmt)
    ensures !IsSpace(OrderMessage(date, rows, upper, fmt)[0])
    ensures !IsSpace(OrderMessage(date, rows, upper, fmt)[|OrderMessage(date, rows, upper, fmt)| - 1])
  {
    var pos := JoinedOrderLines(date, rows, upper, fmt);
    StripKeepsPrefix(Join(OrderLines(date, rows, upper, fmt), "\n"), HeaderLine(date) + "\n\n", pos);
    StripSpec(Join(OrderLines(date, rows, upper, fmt), "\n"));
  }

  // ---------------------------------------------------------------------
  // One heading per category
  // ---------------------------------------------------------------------

  /** The order view's groups have pairwise distinct keys. */
  lemma OrderGroupKeysDistinct(rows: seq<Shortage>, role: string, included: seq<Status>, fb: Fallback)
    ensures forall i, j :: 0 <= i < j < |Groups(OrderRows(rows, role, included, fb))| ==>
      Groups(OrderRows(rows, role, included, fb))[i].key != Groups(OrderRows(rows, role, included, fb))[j].key
  {
    OrderRowsSpec(rows, role, included, fb);
    SortedIsSortedByCat(OrderRows(rows, role, included, fb));
    GroupKeysDistinct(OrderRows(rows, role, included, fb));
  }

  /** Under the form's own "Otros", a category picked from the form, or none
      at all, normalises to one of the form's categories. */
  lemma NormalizedInCategorias(c: Option<string>)
    requires c.None? || AllSpace(c.value) || c.value in Categorias
    ensures NormalizedCategory(c, Otros) in Categorias
  {
    StripSpec(OrEmpty(c));
    if !AllSpace(OrEmpty(c)) {
      CategoriasTrimmed(c.value);
      StripFixed(c.value);
    } else {
      assert Categorias[9] == Otros;
    }
  }

  /** None of the form's categories has whitespace at either end. */
  lemma CategoriasTrimmed(x: string)
    requires x in Categorias
    ensures x != [] && !IsSpace(x[0]) && !IsSpace(x[|x| - 1])
  {
  }

  /** The corrected view: when rows without a category are listed under the
      form's "Otros", every stored category comes from the form (or is
      missing) and the upper-casing tells the form's categories apart, no
      heading of the order message is written twice. */
  lemma OrderHeadingsOnce(rows: seq<Shortage>, role: string, included: seq<Status>, upper: string -> string)
    requires forall i :: 0 <= i < |rows| ==>
      rows[i].category.None? || AllSpace(rows[i].category.value) || rows[i].category.value in Categorias
    requires forall a, b :: a in Categorias && b in Categorias && upper(a) == upper(b) ==> a == b
    ensures forall i, j :: 0 <= i < j < |Groups(OrderRows(rows, role, included, Otros))| ==>
      upper(Groups(OrderRows(rows, role, included, Otros))[i].key)
        != upper(Groups(OrderRows(rows, role, included, Otros))[j].key)
  {
    var ov := OrderRows(rows, role, included, Otros);
    var gs := Groups(ov);
    OrderGroupKeysDistinct(rows, role, included, Otros);
    OrderRowsSpec(rows, role, included, Otros);
    forall g | g in gs ensures g.key in Categorias {
      GroupKeyOccurs(ov, g);
      var i :| 0 <= i < |ov| && Cat(ov[i]) == g.key;
      assert ov[i] in ov;
      var y :| y in rows && OrderKeeps(role, included, y) && ov[i] == Normalize(y, Otros);
      var k :| 0 <= k < |rows| && rows[k] == y;
      NormalizedInCategorias(y.category);
    }
    forall i, j | 0 <= i < j < |gs| ensures upper(gs[i].key) != upper(gs[j].key) {
      assert gs[i] in gs && gs[j] in gs;
    }
  }
}
